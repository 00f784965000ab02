/** The compiler: a worklist builds the dependency graph of the last node backwards,
    and Kahn's algorithm orders it. */
module Compiler {
  import opened Prelude
  import opened Ir
  import opened Tracing
  import opened Network
  import opened CompiledMeaning

  class CompGraphNode {
    const expr: Id
    var nextNodes: seq<CompGraphNode>
    var prevNode: CompGraphNode?
    var sourceNode: CompGraphNode?

    constructor (expr: Id)
      ensures this.expr == expr && nextNodes == [] && prevNode == null && sourceNode == null
    {
      this.expr := expr;
      nextNodes, prevNode, sourceNode := [], null, null;
    }

    method AddNextNode(other: CompGraphNode)
      modifies this`nextNodes
      ensures nextNodes == old(nextNodes) + [other]
    {
      nextNodes := nextNodes + [other];
    }
  }

  function Exprs(nodes: seq<CompGraphNode>): (ids: seq<Id>)
    ensures |ids| == |nodes| && forall i :: 0 <= i < |nodes| ==> ids[i] == nodes[i].expr
  {
    seq(|nodes|, i requires 0 <= i < |nodes| => nodes[i].expr)
  }

  // ----- the specification of the graph -----

  /** Every set that holds the last node, and with an object also what it depends on, holds id. */
  ghost predicate Reachable(heap: Heap, variables: map<string, Id>, last: Id, id: Id) {
    forall s: set<Id> {:trigger BackClosed(heap, variables, s)} ::
      last in s && BackClosed(heap, variables, s) ==> id in s
  }

  ghost predicate AreReached(heap: Heap, variables: map<string, Id>, last: Id, ids: seq<Id>) {
    forall id :: id in ids <==> Reachable(heap, variables, last, id)
  }

  predicate BackClosed(heap: Heap, variables: map<string, Id>, s: set<Id>) {
    forall id :: id in s && id in heap ==>
      (heap[id].prev.Some? ==> heap[id].prev.value in s) &&
      (SourceOf(heap, variables, id).Some? ==> SourceOf(heap, variables, id).value in s)
  }

  /** An object whose dependencies end after at most n links. */
  predicate Grounded(heap: Heap, variables: map<string, Id>, id: Id, n: nat)
    decreases n
  {
    n > 0 && id in heap &&
    (heap[id].prev.Some? ==> Grounded(heap, variables, heap[id].prev.value, n - 1)) &&
    (SourceOf(heap, variables, id).Some? ==> Grounded(heap, variables, SourceOf(heap, variables, id).value, n - 1))
  }

  predicate DependsOn(heap: Heap, variables: map<string, Id>, id: Id, dependency: Id) {
    id in heap && (Some(dependency) == heap[id].prev || Some(dependency) == SourceOf(heap, variables, id))
  }

  /** Nothing that the object depends on, directly or not, depends on itself. */
  ghost predicate IsGrounded(heap: Heap, variables: map<string, Id>, id: Id) {
    exists n: nat :: Grounded(heap, variables, id, n)
  }

  /** The lookup table of the nodes, by expression. */
  predicate Table(nodes: seq<CompGraphNode>, exprToNode: map<Id, CompGraphNode>) {
    && Distinct(Exprs(nodes))
    && (forall k :: 0 <= k < |nodes| ==> nodes[k].expr in exprToNode && exprToNode[nodes[k].expr] == nodes[k])
    && (forall id :: id in exprToNode ==> exprToNode[id] in nodes && exprToNode[id].expr == id)
  }

  /** A reference is to the node of the given object, if there is one. */
  predicate RefersTo(node: CompGraphNode?, target: Option<Id>, nodes: seq<CompGraphNode>) {
    if node == null then target.None? else node in nodes && target == Some(node.expr)
  }

  /** How often x follows m: once for the chain and once for the variable source. */
  function Uses(x: CompGraphNode, m: CompGraphNode): nat
    reads x
  {
    (if x.prevNode == m then 1 else 0) + (if x.sourceNode == m then 1 else 0)
  }

  ghost predicate Follows(nodes: seq<CompGraphNode>)
    reads nodes
  {
    forall m, x :: m in nodes && x in nodes ==> multiset(m.nextNodes)[x] == Uses(x, m)
  }

  ghost predicate FollowersKnown(nodes: seq<CompGraphNode>)
    reads nodes
  {
    forall m, x :: m in nodes && x in m.nextNodes ==> x in nodes
  }

  /** The first `chained` nodes refer to their previous nodes, the first `sourced` ones to their
      sources, and the others to nothing yet. */
  ghost predicate Linked(heap: Heap, variables: map<string, Id>, nodes: seq<CompGraphNode>, chained: nat, sourced: nat)
    reads nodes
  {
    && (forall k :: 0 <= k < |nodes| ==> nodes[k].expr in heap)
    && (forall k :: 0 <= k < |nodes| ==>
          if k < chained then RefersTo(nodes[k].prevNode, heap[nodes[k].expr].prev, nodes)
          else nodes[k].prevNode == null)
    && (forall k :: 0 <= k < |nodes| ==>
          if k < sourced then RefersTo(nodes[k].sourceNode, SourceOf(heap, variables, nodes[k].expr), nodes)
          else nodes[k].sourceNode == null)
  }

  /** The graph as far as the worklist has built it. */
  ghost predicate Graph(heap: Heap, variables: map<string, Id>, nodes: seq<CompGraphNode>, exprToNode: map<Id,
                        CompGraphNode>,
                        chained: nat, sourced: nat)
    reads nodes
  {
    && Table(nodes, exprToNode)
    && Linked(heap, variables, nodes, chained, sourced)
    && Follows(nodes) && FollowersKnown(nodes)
  }

  lemma OnlyAt(nodes: seq<CompGraphNode>, exprToNode: map<Id, CompGraphNode>, head: nat)
    requires Table(nodes, exprToNode) && head < |nodes|
    ensures forall k :: 0 <= k < |nodes| && k != head ==> nodes[k] != nodes[head]
  {
    var ids := Exprs(nodes);
    assert forall k :: 0 <= k < |nodes| && k != head ==> ids[k] != ids[head];
  }

  lemma StartOfGraph(heap: Heap, variables: map<string, Id>, node: CompGraphNode)
    requires node.expr in heap && node.nextNodes == [] && node.prevNode == null && node.sourceNode == null
    ensures Graph(heap, variables, [node], map[node.expr := node], 0, 0)
  {
  }

  /** A node without a link counts as linked. */
  lemma NothingToLink(heap: Heap, variables: map<string, Id>, nodes: seq<CompGraphNode>, chained: nat, sourced: nat)
    requires Linked(heap, variables, nodes, chained, sourced) && chained <= |nodes| && sourced < |nodes|
    ensures chained < |nodes| && heap[nodes[chained].expr].prev.None? ==>
              Linked(heap, variables, nodes, chained + 1, sourced)
    ensures SourceOf(heap, variables, nodes[sourced].expr).None? ==>
              Linked(heap, variables, nodes, chained, sourced + 1)
  {
  }

  lemma GrowLinks(heap: Heap, variables: map<string, Id>, was: seq<CompGraphNode>, node: CompGraphNode, chained: nat,
                  sourced: nat)
    requires Linked(heap, variables, was, chained, sourced) && chained <= |was| && sourced <= |was|
    requires node.expr in heap && node.prevNode == null && node.sourceNode == null
    ensures Linked(heap, variables, was + [node], chained, sourced)
  {
    var nodes := was + [node];
    assert forall x :: x in was ==> x in nodes;
  }

  lemma GrowFollowers(heap: Heap, variables: map<string, Id>, was: seq<CompGraphNode>, node: CompGraphNode,
                      chained: nat, sourced: nat)
    requires Linked(heap, variables, was, chained, sourced)
    requires Follows(was) && FollowersKnown(was) && node !in was
    requires node.nextNodes == [] && node.prevNode == null && node.sourceNode == null
    ensures Follows(was + [node]) && FollowersKnown(was + [node])
  {
    var nodes := was + [node];
    forall m, x | m in nodes && x in nodes
      ensures multiset(m.nextNodes)[x] == Uses(x, m)
    {
      if m in was && x == node {
        assert x !in m.nextNodes;
      } else if x in was && m == node {
        var k :| 0 <= k < |was| && was[k] == x;
        assert x.prevNode != node && x.sourceNode != node;
      }
    }
  }

  lemma GrowTable(was: seq<CompGraphNode>, exprToNode: map<Id, CompGraphNode>, node: CompGraphNode)
    requires Table(was, exprToNode) && node.expr !in exprToNode
    ensures node !in was && Table(was + [node], exprToNode[node.expr := node])
  {
    var nodes := was + [node];
    assert Exprs(nodes) == Exprs(was) + [node.expr];
  }

  lemma GrowGraph(heap: Heap, variables: map<string, Id>, was: seq<CompGraphNode>, node: CompGraphNode,
                  exprToNode: map<Id, CompGraphNode>, chained: nat, sourced: nat)
    requires Linked(heap, variables, was, chained, sourced) && chained <= |was| && sourced <= |was|
    requires Follows(was) && FollowersKnown(was) && node !in was && Table(was + [node], exprToNode)
    requires node.expr in heap && node.nextNodes == [] && node.prevNode == null && node.sourceNode == null
    ensures Graph(heap, variables, was + [node], exprToNode, chained, sourced)
  {
    GrowLinks(heap, variables, was, node, chained, sourced);
    GrowFollowers(heap, variables, was, node, chained, sourced);
  }

  lemma RenamingGrows(was: map<Pid, nat>, pid: Pid)
    requires Renaming(was) && pid !in was
    ensures Renaming(was[pid := |was|])
  {
    var rename := was[pid := |was|];
    forall n: nat | n < |rename|
      ensures IsNewLabel(rename, n)
    {
      if n < |was| {
        assert IsNewLabel(was, n);
        var p :| p in was && was[p] == n;
        assert rename[p] == n;
      } else {
        assert rename[pid] == n;
      }
    }
  }

  lemma RelabellingGrows(before: Heap, objects: Heap, was: map<Pid, nat>, rename: map<Pid, nat>,
                         nodes: seq<CompGraphNode>, head: nat)
    requires head < |nodes| && Distinct(Exprs(nodes)) && nodes[head].expr in objects
    requires RelabelledUpTo(before, objects, was, nodes, head)
    requires nodes[head].expr !in Exprs(nodes[..head])
    requires objects[nodes[head].expr].pid in rename
    requires forall p :: p in was ==> p in rename && rename[p] == was[p]
    ensures var id := nodes[head].expr;
            RelabelledUpTo(before, WithLabel(objects, id, rename), rename, nodes, head + 1)
  {
    var ids, ids' := Exprs(nodes[..head]), Exprs(nodes[..head + 1]);
    assert ids' == ids + [nodes[head].expr];
    DifferentExprs(nodes, head);
  }

  lemma DifferentExprs(nodes: seq<CompGraphNode>, head: nat)
    requires head < |nodes| && Distinct(Exprs(nodes))
    ensures forall k :: 0 <= k < head ==> nodes[k].expr != nodes[head].expr
  {
    forall k | 0 <= k < head
      ensures nodes[k].expr != nodes[head].expr
    {
      assert Exprs(nodes)[k] != Exprs(nodes)[head];
    }
  }

  lemma LabelsOfPrefix(before: Heap, objects: Heap, rename: map<Pid, nat>, was: seq<CompGraphNode>,
                       nodes: seq<CompGraphNode>, head: nat)
    requires head <= |was| && was <= nodes
    requires RelabelledUpTo(before, objects, rename, was, head)
    ensures RelabelledUpTo(before, objects, rename, nodes, head)
  {
    assert was[..head] == nodes[..head];
  }

  predicate SameButLabels(before: Heap, after: Heap) {
    && after.Keys == before.Keys
    && (forall id :: id in before ==> after[id].kind == before[id].kind && after[id].prev == before[id].prev)
  }

  lemma GraphIgnoresLabels(objects: Heap, objects': Heap, variables: map<string, Id>, nodes: seq<CompGraphNode>,
                           exprToNode: map<Id, CompGraphNode>, n: nat)
    requires SameButLabels(objects, objects') && Closed(objects, variables)
    requires Graph(objects, variables, nodes, exprToNode, n, n)
    ensures Closed(objects', variables)
    ensures Graph(objects', variables, nodes, exprToNode, n, n)
  {
    assert forall id :: id in objects ==> SourceOf(objects', variables, id) == SourceOf(objects, variables, id);
  }

  function Renamed(was: map<Pid, nat>, pid: Pid): map<Pid, nat> {
    if pid in was then was else was[pid := |was|]
  }

  function WithLabel(objects: Heap, id: Id, rename: map<Pid, nat>): Heap
    requires id in objects && objects[id].pid in rename
  {
    objects[id := objects[id].(pid := Stream(rename[objects[id].pid]))]
  }

  lemma LabelStep(before: Heap, objects: Heap, nodes: seq<CompGraphNode>, was: map<Pid, nat>, head: nat)
    requires head < |nodes| && Distinct(Exprs(nodes)) && nodes[head].expr in objects
    requires Renaming(was) && RelabelledUpTo(before, objects, was, nodes, head)
    ensures var id := nodes[head].expr; var rename := Renamed(was, objects[id].pid);
            && SameButLabels(objects, WithLabel(objects, id, rename))
            && Renaming(rename) && RelabelledUpTo(before, WithLabel(objects, id, rename), rename, nodes, head + 1)
  {
    var id := nodes[head].expr;
    if objects[id].pid !in was {
      RenamingGrows(was, objects[id].pid);
    }
    assert Exprs(nodes)[head] == id;
    assert forall k :: 0 <= k < head ==> Exprs(nodes)[k] == Exprs(nodes[..head])[k];
    RelabellingGrows(before, objects, was, Renamed(was, objects[id].pid), nodes, head);
  }

  lemma ReachesDependency(before: Heap, objects: Heap, variables: map<string, Id>, last: Id, id: Id, dependency: Id)
    requires SameButLabels(before, objects)
    requires Reachable(before, variables, last, id) && DependsOn(objects, variables, id, dependency)
    ensures Reachable(before, variables, last, dependency)
  {
    assert SourceOf(objects, variables, id) == SourceOf(before, variables, id);
  }

  lemma ReachesAdded(before: Heap, objects: Heap, variables: map<string, Id>, last: Id, known: seq<CompGraphNode>,
                     nodes: seq<CompGraphNode>, head: nat)
    requires SameButLabels(before, objects) && known <= nodes && head < |known|
    requires forall k :: 0 <= k < |known| ==> Reachable(before, variables, last, known[k].expr)
    requires forall k :: |known| <= k < |nodes| ==> DependsOn(objects, variables, nodes[head].expr, nodes[k].expr)
    ensures forall k :: 0 <= k < |nodes| ==> Reachable(before, variables, last, nodes[k].expr)
  {
    forall k | 0 <= k < |nodes|
      ensures Reachable(before, variables, last, nodes[k].expr)
    {
      if |known| <= k {
        ReachesDependency(before, objects, variables, last, nodes[head].expr, nodes[k].expr);
      } else {
        assert nodes[k] == known[k];
      }
    }
  }

  /** A finished worklist is exactly what can be reached. */
  lemma ReachesAll(before: Heap, objects: Heap, variables: map<string, Id>, nodes: seq<CompGraphNode>,
                   exprToNode: map<Id, CompGraphNode>)
    requires 0 < |nodes| && Graph(objects, variables, nodes, exprToNode, |nodes|, |nodes|)
    requires SameButLabels(before, objects)
    requires forall k :: 0 <= k < |nodes| ==> Reachable(before, variables, nodes[0].expr, nodes[k].expr)
    ensures forall id :: id in Exprs(nodes) <==> Reachable(before, variables, nodes[0].expr, id)
  {
    var ids := set id | id in Exprs(nodes);
    forall id | id in ids && id in before
      ensures before[id].prev.Some? ==> before[id].prev.value in ids
      ensures SourceOf(before, variables, id).Some? ==> SourceOf(before, variables, id).value in ids
    {
      LinksAreNodes(before, objects, variables, nodes, id);
    }
    assert BackClosed(before, variables, ids);
    assert Exprs(nodes)[0] in ids;
  }

  lemma LinksAreNodes(before: Heap, objects: Heap, variables: map<string, Id>, nodes: seq<CompGraphNode>, id: Id)
    requires Linked(objects, variables, nodes, |nodes|, |nodes|) && SameButLabels(before, objects)
    requires id in Exprs(nodes)
    ensures id in before
    ensures before[id].prev.Some? ==> before[id].prev.value in Exprs(nodes)
    ensures SourceOf(before, variables, id).Some? ==> SourceOf(before, variables, id).value in Exprs(nodes)
  {
    var k :| 0 <= k < |nodes| && Exprs(nodes)[k] == id;
    assert SourceOf(objects, variables, id) == SourceOf(before, variables, id);
    if before[id].prev.Some? {
      var i :| 0 <= i < |nodes| && nodes[i] == nodes[k].prevNode;
      assert Exprs(nodes)[i] == before[id].prev.value;
    }
    if SourceOf(before, variables, id).Some? {
      var i :| 0 <= i < |nodes| && nodes[i] == nodes[k].sourceNode;
      assert Exprs(nodes)[i] == SourceOf(before, variables, id).value;
    }
  }

  // ----- the specification of the order -----

  /** The nodes that x still waits for. */
  function Pending(x: CompGraphNode, listed: seq<CompGraphNode>): nat
    reads x
  {
    (if x.prevNode != null && x.prevNode !in listed then 1 else 0) +
    (if x.sourceNode != null && x.sourceNode !in listed then 1 else 0)
  }

  /** The listed nodes and the candidates are, without repetition, the nodes that wait for nothing more. */
  ghost predicate Partitioned(nodes: seq<CompGraphNode>, prevd: map<CompGraphNode, nat>, listed: seq<CompGraphNode>,
                              cand: seq<CompGraphNode>)
    requires forall x :: x in nodes ==> x in prevd
  {
    && (forall x :: x in nodes ==> (x in listed || x in cand <==> prevd[x] == 0))
    && (forall x :: x in listed ==> x in nodes)
    && (forall x :: x in cand ==> x in nodes && x !in listed)
    && Distinct(listed) && Distinct(cand)
  }

  /** The counters of Kahn's algorithm. */
  ghost predicate Counted(nodes: seq<CompGraphNode>, prevd: map<CompGraphNode, nat>, listed: seq<CompGraphNode>,
                          cand: seq<CompGraphNode>)
    reads nodes
  {
    && (forall x :: x in nodes ==> x in prevd)
    && (forall x :: x in prevd ==> x in nodes)
    && (forall x :: x in nodes ==> prevd[x] == Pending(x, listed))
    && Partitioned(nodes, prevd, listed, cand)
  }

  lemma HeadIsListed(nodes: seq<CompGraphNode>, prevd: map<CompGraphNode, nat>, listed: seq<CompGraphNode>,
                     head: CompGraphNode, waiting: seq<CompGraphNode>)
    requires forall x :: x in nodes ==> x in prevd
    requires Partitioned(nodes, prevd, listed, [head] + waiting)
    ensures head !in listed
    ensures Partitioned(nodes, prevd, listed + [head], waiting)
  {
    var cand := [head] + waiting;
    assert cand[0] == head && head in cand;
    assert forall i :: 0 <= i < |waiting| ==> waiting[i] == cand[i + 1];
  }

  lemma OneLess(nodes: seq<CompGraphNode>, prevd: map<CompGraphNode, nat>, listed: seq<CompGraphNode>,
                cand: seq<CompGraphNode>, x: CompGraphNode)
    requires forall y :: y in nodes ==> y in prevd
    requires Partitioned(nodes, prevd, listed, cand) && x in nodes && prevd[x] > 0
    ensures Partitioned(nodes, prevd[x := prevd[x] - 1], listed, if prevd[x] == 1 then cand + [x] else cand)
  {
  }

  lemma ListingOne(x: CompGraphNode, listed: seq<CompGraphNode>, head: CompGraphNode)
    requires head !in listed
    ensures Pending(x, listed) == Pending(x, listed + [head]) + Uses(x, head)
  {
  }

  lemma CountGrows<T>(s: seq<T>, i: nat, x: T)
    requires i < |s| && s[i] == x
    ensures multiset(s[..i + 1]) == multiset(s[..i]) + multiset{x}
    ensures multiset(s[..i])[x] < multiset(s)[x]
  {
    assert s[..i + 1] == s[..i] + [x];
    assert s == s[..i + 1] + s[i + 1..];
  }

  ghost predicate ToRelease(nodes: seq<CompGraphNode>, head: CompGraphNode, listed: seq<CompGraphNode>,
                            prevd: map<CompGraphNode, nat>, i: nat)
    requires i <= |head.nextNodes|
    reads nodes, head
  {
    && (forall x :: x in prevd ==> x in nodes) && (forall x :: x in nodes ==> x in prevd)
    && (forall x :: x in nodes ==> prevd[x] + multiset(head.nextNodes[..i])[x] == Pending(x, listed))
    && (forall x :: x in nodes ==> Pending(x, listed) == Pending(x, listed + [head]) + multiset(head.nextNodes)[x])
  }

  /** The first i followers of the node that is listed next have been released. */
  ghost predicate Releasing(nodes: seq<CompGraphNode>, head: CompGraphNode, listed: seq<CompGraphNode>,
                            prevd: map<CompGraphNode, nat>, cand: seq<CompGraphNode>, i: nat)
    reads nodes, head
  {
    && i <= |head.nextNodes| && ToRelease(nodes, head, listed, prevd, i)
    && Partitioned(nodes, prevd, listed + [head], cand)
  }

  lemma StartReleasing(nodes: seq<CompGraphNode>, head: CompGraphNode, was: map<CompGraphNode, nat>,
                       listed: seq<CompGraphNode>, waiting: seq<CompGraphNode>)
    requires Follows(nodes) && head in nodes && Counted(nodes, was, listed, [head] + waiting)
    ensures Releasing(nodes, head, listed, was, waiting, 0)
  {
    HeadIsListed(nodes, was, listed, head, waiting);
    forall x | x in nodes
      ensures Pending(x, listed) == Pending(x, listed + [head]) + multiset(head.nextNodes)[x]
    {
      ListingOne(x, listed, head);
    }
  }

  lemma ReleasesOne(nodes: seq<CompGraphNode>, head: CompGraphNode, listed: seq<CompGraphNode>,
                    prevd: map<CompGraphNode, nat>, cand: seq<CompGraphNode>, i: nat)
    requires FollowersKnown(nodes) && head in nodes && i < |head.nextNodes|
    requires Releasing(nodes, head, listed, prevd, cand, i)
    ensures var x := head.nextNodes[i];
            && x in prevd && prevd[x] > 0
            && Releasing(nodes, head, listed, prevd[x := prevd[x] - 1], if prevd[x] == 1 then cand + [x] else cand,
                         i + 1)
  {
    var x := head.nextNodes[i];
    assert x in head.nextNodes;
    StillToRelease(nodes, head, listed, prevd, i);
    OneLess(nodes, prevd, listed + [head], cand, x);
  }

  lemma StillToRelease(nodes: seq<CompGraphNode>, head: CompGraphNode, listed: seq<CompGraphNode>,
                       prevd: map<CompGraphNode, nat>, i: nat)
    requires i < |head.nextNodes| && head.nextNodes[i] in nodes && ToRelease(nodes, head, listed, prevd, i)
    ensures var x := head.nextNodes[i];
            prevd[x] > 0 && ToRelease(nodes, head, listed, prevd[x := prevd[x] - 1], i + 1)
  {
    CountGrows(head.nextNodes, i, head.nextNodes[i]);
  }

  lemma EndReleasing(nodes: seq<CompGraphNode>, head: CompGraphNode, listed: seq<CompGraphNode>,
                     prevd: map<CompGraphNode, nat>, cand: seq<CompGraphNode>)
    requires Releasing(nodes, head, listed, prevd, cand, |head.nextNodes|)
    ensures Counted(nodes, prevd, listed + [head], cand)
  {
    assert head.nextNodes[..|head.nextNodes|] == head.nextNodes;
  }

  lemma {:induction false} DistinctFits<T>(s: seq<T>, within: set<T>)
    requires Distinct(s) && forall x :: x in s ==> x in within
    ensures |s| <= |within|
  {
    if s != [] {
      DistinctFits(s[1..], within - {s[0]});
    }
  }

  lemma ListedFits<T>(listed: seq<T>, all: seq<T>)
    requires Distinct(all) && Distinct(listed) && forall x :: x in listed ==> x in all
    ensures |listed| <= |all|
  {
    var within := set x | x in all;
    SizeOfDistinct(all, within);
    DistinctFits(listed, within);
  }

  lemma {:induction false} SizeOfDistinct<T>(all: seq<T>, within: set<T>)
    requires Distinct(all) && within == set x | x in all
    ensures |within| == |all|
  {
    if all != [] {
      assert all == [all[0]] + all[1..];
      SizeOfDistinct(all[1..], within - {all[0]});
    }
  }

  predicate Sorted(nodes: seq<CompGraphNode>)
    reads nodes
  {
    && Distinct(nodes)
    && forall j :: 0 <= j < |nodes| ==> Pending(nodes[j], nodes[..j]) == 0
  }

  lemma SortedGrows(listed: seq<CompGraphNode>, head: CompGraphNode)
    requires Sorted(listed) && head !in listed && Pending(head, listed) == 0
    ensures Sorted(listed + [head])
  {
    assert forall j :: 0 <= j <= |listed| ==> (listed + [head])[..j] == listed[..j];
  }

  /** A node is listed as soon as everything it waits for is. */
  predicate DownwardComplete(nodes: seq<CompGraphNode>, listed: seq<CompGraphNode>)
    reads nodes
  {
    forall x :: x in nodes && Pending(x, listed) == 0 ==> x in listed
  }

  lemma NodeInGraph(heap: Heap, variables: map<string, Id>, all: seq<CompGraphNode>,
                    exprToNode: map<Id, CompGraphNode>, x: CompGraphNode)
    requires Graph(heap, variables, all, exprToNode, |all|, |all|) && x in all
    ensures x.expr in heap && x.expr in exprToNode && exprToNode[x.expr] == x
    ensures RefersTo(x.prevNode, heap[x.expr].prev, all)
    ensures RefersTo(x.sourceNode, SourceOf(heap, variables, x.expr), all)
  {
    var k :| 0 <= k < |all| && all[k] == x;
  }

  /** A sorted part of the graph is a topological order of its objects. */
  lemma SortedIsTopological(heap: Heap, variables: map<string, Id>, all: seq<CompGraphNode>,
                            exprToNode: map<Id, CompGraphNode>, listed: seq<CompGraphNode>)
    requires Graph(heap, variables, all, exprToNode, |all|, |all|)
    requires Sorted(listed) && forall x :: x in listed ==> x in all
    ensures Topological(heap, variables, Exprs(listed))
  {
    var order := Exprs(listed);
    forall i, j | 0 <= i < j < |order|
      ensures order[i] != order[j]
    {
      NodeInGraph(heap, variables, all, exprToNode, listed[i]);
      NodeInGraph(heap, variables, all, exprToNode, listed[j]);
    }
    forall j | 0 <= j < |order|
      ensures order[j] in heap
      ensures Comes(order, heap[order[j]].prev, j) && Comes(order, SourceOf(heap, variables, order[j]), j)
    {
      NodeInGraph(heap, variables, all, exprToNode, listed[j]);
      ListedBefore(listed, j, listed[j].prevNode);
      ListedBefore(listed, j, listed[j].sourceNode);
    }
  }

  lemma ListedBefore(listed: seq<CompGraphNode>, j: nat, node: CompGraphNode?)
    requires j < |listed| && (node != null ==> node in listed[..j])
    ensures node != null ==> node.expr in Exprs(listed)[..j]
  {
    if node != null {
      var i :| 0 <= i < j && listed[i] == node;
      assert Exprs(listed)[..j][i] == node.expr;
    }
  }

  lemma {:induction false} GroundedIsListed(heap: Heap, variables: map<string, Id>, all: seq<CompGraphNode>,
                                            exprToNode: map<Id, CompGraphNode>, listed: seq<CompGraphNode>,
                                            x: CompGraphNode, n: nat)
    requires Graph(heap, variables, all, exprToNode, |all|, |all|)
    requires DownwardComplete(all, listed) && x in all && Grounded(heap, variables, x.expr, n)
    ensures x in listed
    decreases n
  {
    NodeInGraph(heap, variables, all, exprToNode, x);
    if x.prevNode != null {
      GroundedIsListed(heap, variables, all, exprToNode, listed, x.prevNode, n - 1);
    }
    if x.sourceNode != null {
      GroundedIsListed(heap, variables, all, exprToNode, listed, x.sourceNode, n - 1);
    }
  }

  lemma {:induction false} GroundedMore(heap: Heap, variables: map<string, Id>, id: Id, n: nat, m: nat)
    requires Grounded(heap, variables, id, n) && n <= m
    ensures Grounded(heap, variables, id, m)
    decreases n
  {
    if heap[id].prev.Some? {
      GroundedMore(heap, variables, heap[id].prev.value, n - 1, m - 1);
    }
    if SourceOf(heap, variables, id).Some? {
      GroundedMore(heap, variables, SourceOf(heap, variables, id).value, n - 1, m - 1);
    }
  }

  /** An object of a topological order depends on nothing cyclic. */
  lemma PlaceBefore(order: seq<Id>, id: Id, j: nat) returns (k: nat)
    requires j < |order| && id in order[..j]
    ensures k < j && order[k] == id
  {
    k := IndexOf(order[..j], id);
  }

  lemma {:induction false} TopologicalIsGrounded(heap: Heap, variables: map<string, Id>, order: seq<Id>, j: nat)
    requires Topological(heap, variables, order) && j < |order|
    ensures Grounded(heap, variables, order[j], j + 1)
    decreases j
  {
    var id := order[j];
    assert Comes(order, heap[id].prev, j) && Comes(order, SourceOf(heap, variables, id), j);
    if heap[id].prev.Some? {
      var k := PlaceBefore(order, heap[id].prev.value, j);
      TopologicalIsGrounded(heap, variables, order, k);
      GroundedMore(heap, variables, order[k], k + 1, j);
    }
    if SourceOf(heap, variables, id).Some? {
      var k := PlaceBefore(order, SourceOf(heap, variables, id).value, j);
      TopologicalIsGrounded(heap, variables, order, k);
      GroundedMore(heap, variables, order[k], k + 1, j);
    }
  }

  /** Kahn's algorithm lists a node exactly when nothing it depends on lies on a cycle. */
  lemma ListedIffGrounded(heap: Heap, variables: map<string, Id>, all: seq<CompGraphNode>,
                          exprToNode: map<Id, CompGraphNode>, listed: seq<CompGraphNode>)
    requires Graph(heap, variables, all, exprToNode, |all|, |all|)
    requires Sorted(listed) && (forall x :: x in listed ==> x in all) && DownwardComplete(all, listed)
    ensures forall id :: id in Exprs(all) ==>
              (id in Exprs(listed) <==> IsGrounded(heap, variables, id))
  {
    SortedIsTopological(heap, variables, all, exprToNode, listed);
    forall id | id in Exprs(all)
      ensures id in Exprs(listed) <==> IsGrounded(heap, variables, id)
    {
      var k :| 0 <= k < |all| && Exprs(all)[k] == id;
      if id in Exprs(listed) {
        var j := IndexOf(Exprs(listed), id);
        TopologicalIsGrounded(heap, variables, Exprs(listed), j);
        assert Grounded(heap, variables, id, j + 1);
      }
      if IsGrounded(heap, variables, id) {
        var n: nat :| Grounded(heap, variables, id, n);
        GroundedIsListed(heap, variables, all, exprToNode, listed, all[k], n);
        var j :| 0 <= j < |listed| && listed[j] == all[k];
        assert Exprs(listed)[j] == id;
      }
    }
  }

  /** A missing argument fails the run as a whole. */
  lemma {:induction false} FailsEarly(heap: Heap, variables: map<string, Id>, order: seq<Id>, i: nat, n: nat,
                                      arguments: map<string, string>, defaults: Params)
    requires i <= n <= |order| && forall j :: 0 <= j < |order| ==> order[j] in heap
    requires Compiled(heap, variables, order, i, arguments, defaults).Err?
    ensures Compiled(heap, variables, order, n, arguments, defaults) ==
            Compiled(heap, variables, order, i, arguments, defaults)
  {
    if i < n {
      FailsEarly(heap, variables, order, i, n - 1, arguments, defaults);
    }
  }

  ghost predicate IsNewLabel(rename: map<Pid, nat>, n: nat) {
    exists p :: p in rename && rename[p] == n
  }

  /** The renaming of the labels met so far: injective, onto 0..|rename|-1. */
  ghost predicate Renaming(rename: map<Pid, nat>) {
    && (forall p :: p in rename ==> rename[p] < |rename|)
    && (forall p, q :: p in rename && q in rename && rename[p] == rename[q] ==> p == q)
    && (forall n: nat :: n < |rename| ==> IsNewLabel(rename, n))
  }

  /** The objects of the first `head` nodes carry their new labels, all others are as before. */
  ghost predicate RelabelledUpTo(before: Heap, after: Heap, rename: map<Pid, nat>, nodes: seq<CompGraphNode>, head: nat)
    requires head <= |nodes|
  {
    && SameButLabels(before, after)
    && (forall id :: id in before && id !in Exprs(nodes[..head]) ==> after[id] == before[id])
    && (forall k :: 0 <= k < head ==>
          nodes[k].expr in before && before[nodes[k].expr].pid in rename &&
          after[nodes[k].expr].pid == Stream(rename[before[nodes[k].expr].pid]))
  }

  /** The submission of an object in a compiled run. */
  ghost predicate Submits(heap: Heap, variables: map<string, Id>, id: Id, arguments: map<string, string>,
                          defaults: Params, sub: Submission)
    requires id in heap
  {
    && (heap[id].pid.Stream? ==> sub.stream == heap[id].pid.n)
    && match heap[id].kind
       case Const(value) => sub.op == Text(value)
       case Argument(name) => name in arguments && sub.op == Text(arguments[name])
       case Gen(key, o) => sub.op.Gen? && sub.op.key == key && Governed(sub.op.params, defaults, o)
       case Select(key, choices) => sub.op == Op.Select(key, choices)
       case Variable(name, made) =>
         && sub.op.Read? && sub.op.name == name && sub.op.onWorker
         && var source := if name in variables then variables[name] else made;
         source in heap && heap[source].pid.Stream? ==> sub.op.source == heap[source].pid.n
  }

  lemma OpSubmits(heap: Heap, variables: map<string, Id>, id: Id, arguments: map<string, string>, defaults: Params)
    requires id in heap
    ensures var op := CompiledOp(heap, variables, id, arguments, defaults);
            && (op.Ok? ==>
                  Submits(heap, variables, id, arguments, defaults, Submission(StreamOf(heap, id), op.value)))
            && (op.Err? ==>
                  heap[id].kind.Argument? && heap[id].kind.name !in arguments &&
                  op.error == KeyError(heap[id].kind.name))
  {
    if heap[id].kind.Gen? {
      ResolvedIsGoverned(ResolveParams(defaults, heap[id].kind.overrides), defaults, heap[id].kind.overrides);
    }
  }

  lemma {:induction false} AllSubmit(heap: Heap, variables: map<string, Id>, order: seq<Id>, n: nat,
                                     arguments: map<string, string>, defaults: Params)
    requires n <= |order| && forall j :: 0 <= j < |order| ==> order[j] in heap
    requires Compiled(heap, variables, order, n, arguments, defaults).Ok?
    ensures var submitted := Compiled(heap, variables, order, n, arguments, defaults).value;
            && |submitted| == n
            && forall i :: 0 <= i < n ==> Submits(heap, variables, order[i], arguments, defaults, submitted[i])
  {
    if n > 0 {
      AllSubmit(heap, variables, order, n - 1, arguments, defaults);
      OpSubmits(heap, variables, order[n - 1], arguments, defaults);
    }
  }

  /** A run fails with the first object that cannot be submitted. */
  lemma FailsAt(heap: Heap, variables: map<string, Id>, order: seq<Id>, i: nat,
                arguments: map<string, string>, defaults: Params)
    requires i < |order| && forall j :: 0 <= j < |order| ==> order[j] in heap
    requires Compiled(heap, variables, order, i, arguments, defaults).Ok?
    requires CompiledOp(heap, variables, order[i], arguments, defaults).Err?
    ensures var submitted := Compiled(heap, variables, order, i, arguments, defaults).value;
            && |submitted| == i
            && forall j :: 0 <= j < i ==> Submits(heap, variables, order[j], arguments, defaults, submitted[j])
    ensures var kind := heap[order[i]].kind;
            && kind.Argument? && kind.name !in arguments
            && CompiledOp(heap, variables, order[i], arguments, defaults) == Err(KeyError(kind.name))
            && Compiled(heap, variables, order, |order|, arguments, defaults) == Err(KeyError(kind.name))
  {
    AllSubmit(heap, variables, order, i, arguments, defaults);
    OpSubmits(heap, variables, order[i], arguments, defaults);
    FailsEarly(heap, variables, order, i + 1, |order|, arguments, defaults);
  }

  class CompiledFunction {
    const heap: IrHeap
    const variables: map<string, Id>
    var nodes: seq<CompGraphNode>
    var lastNode: CompGraphNode
    var exprToNode: map<Id, CompGraphNode>

    /** Every node the worklist made, and the labels it gave. */
    ghost var all: seq<CompGraphNode>
    ghost var streams: map<Pid, nat>

    ghost predicate Valid()
      reads this, heap, all, nodes
    {
      && Graph(heap.objects, variables, all, exprToNode, |all|, |all|)
      && lastNode in all
      && (forall x :: x in nodes ==> x in all)
      && Sorted(nodes) && DownwardComplete(all, nodes)
      && Topological(heap.objects, variables, Exprs(nodes))
    }

    /** Each node of the order stands for a live object and refers to the node of its source. */
    ghost predicate Runnable()
      reads this, heap, nodes
    {
      forall x :: x in nodes ==>
        && x.expr in heap.objects
        && SourceOf(heap.objects, variables, x.expr) == if x.sourceNode == null then None else Some(x.sourceNode.expr)
    }

    constructor (heap: IrHeap, lastNode: Id, variables: map<string, Id>)
      requires lastNode in heap.objects && Closed(heap.objects, variables)
      modifies heap
      ensures Valid() && Runnable() && this.heap == heap && this.variables == variables
      ensures this.lastNode.expr == lastNode
      ensures forall id :: id in Exprs(all) <==> Reachable(old(heap.objects), variables, lastNode, id)
      ensures forall id :: id in Exprs(all) ==>
                (id in Exprs(nodes) <==> IsGrounded(heap.objects, variables, id))
      ensures Renaming(streams) && RelabelledUpTo(old(heap.objects), heap.objects, streams, all, |all|)
    {
      this.heap, this.variables := heap, variables;
      var node := new CompGraphNode(lastNode);
      this.lastNode, nodes, exprToNode := node, [node], map[lastNode := node];
      new;
      StartIsBuilding();
      Compile();
    }

    method Compile()
      requires nodes == [lastNode] && Building(heap.objects, map[], 0)
      modifies this`nodes, this`exprToNode, this`all, this`streams, heap, lastNode
      ensures Valid() && Runnable()
      ensures AreReached(old(heap.objects), variables, lastNode.expr, Exprs(all))
      ensures forall id :: id in Exprs(all) ==>
                (id in Exprs(nodes) <==> IsGrounded(heap.objects, variables, id))
      ensures Renaming(streams) && RelabelledUpTo(old(heap.objects), heap.objects, streams, all, |all|)
    {
      ghost var before := heap.objects;
      BuildGraph();
      OrderNodes(before);
    }

    method OrderNodes(ghost before: Heap)
      requires nodes == all && lastNode in all && Graph(heap.objects, variables, all, exprToNode, |all|, |all|)
      requires AreReached(before, variables, lastNode.expr, Exprs(all))
      requires Renaming(streams) && RelabelledUpTo(before, heap.objects, streams, all, |all|)
      modifies this`nodes
      ensures Valid() && Runnable()
      ensures forall id :: id in Exprs(all) ==>
                (id in Exprs(nodes) <==> IsGrounded(heap.objects, variables, id))
      ensures AreReached(before, variables, lastNode.expr, Exprs(all))
      ensures Renaming(streams) && RelabelledUpTo(before, heap.objects, streams, all, |all|)
    {
      TopologicalSort();
      SortedIsTopological(heap.objects, variables, all, exprToNode, nodes);
      ListedIffGrounded(heap.objects, variables, all, exprToNode, nodes);
      SortedIsRunnable();
    }

    lemma SortedIsRunnable()
      requires Graph(heap.objects, variables, all, exprToNode, |all|, |all|) && forall x :: x in nodes ==> x in all
      ensures Runnable()
    {
      forall x | x in nodes {
        NodeInGraph(heap.objects, variables, all, exprToNode, x);
      }
    }

    method Operation(node: CompGraphNode, arguments: map<string, string>, defaults: Params) returns (op: Result<Op>)
      requires Runnable() && node in nodes
      ensures op == CompiledOp(heap.objects, variables, node.expr, arguments, defaults)
    {
      op := OpOf(heap.objects[node.expr].kind,
                 if node.sourceNode != null then StreamOf(heap.objects, node.sourceNode.expr) else 0,
                 true, arguments, defaults);
    }

    /** The submissions of a run, in the order of the nodes, each to the stream of its object: constants and
        arguments as text, generations with what they set and the defaults of the run for the rest, choices as
        they are, and variables read from the stream of their source. A run that fails has submitted
        everything before the argument that is missing. */
    method RunInternal(arguments: map<string, string>, defaults: Params)
      returns (r: Result<seq<Submission>>, submitted: seq<Submission>, n: nat)
      requires Runnable()
      ensures r == Compiled(heap.objects, variables, Exprs(nodes), |nodes|, arguments, defaults)
      ensures n <= |nodes| && Compiled(heap.objects, variables, Exprs(nodes), n, arguments, defaults) == Ok(submitted)
      ensures if r.Ok? then n == |nodes|
              else
                n < |nodes| &&
                CompiledOp(heap.objects, variables, nodes[n].expr, arguments, defaults) == Err(r.error)
      ensures |submitted| == n && (r.Ok? ==> r.value == submitted)
      ensures forall i :: 0 <= i < n ==>
                Submits(heap.objects, variables, nodes[i].expr, arguments, defaults, submitted[i])
      ensures r.Err? ==>
                var kind := heap.objects[nodes[n].expr].kind;
                kind.Argument? && kind.name !in arguments && r.error == KeyError(kind.name)
    {
      submitted := [];
      ghost var order := Exprs(nodes);
      for i := 0 to |nodes|
        invariant Compiled(heap.objects, variables, order, i, arguments, defaults) == Ok(submitted)
      {
        var op := Operation(nodes[i], arguments, defaults);
        if op.Err? {
          FailsAt(heap.objects, variables, order, i, arguments, defaults);
          return Err(op.error), submitted, i;
        }
        submitted := submitted + [Submission(StreamOf(heap.objects, nodes[i].expr), op.value)];
      }
      AllSubmit(heap.objects, variables, order, |nodes|, arguments, defaults);
      r, n := Ok(submitted), |nodes|;
    }

    /** A new node at the end of the worklist, with the graph built so far intact. */
    method AddNode(id: Id, chained: nat, sourced: nat)
      requires chained <= |nodes| && sourced <= |nodes| && id in heap.objects && id !in exprToNode
      requires Graph(heap.objects, variables, nodes, exprToNode, chained, sourced)
      modifies this`nodes, this`exprToNode
      ensures Graph(heap.objects, variables, nodes, exprToNode, chained, sourced) && id in exprToNode
      ensures |nodes| == |old(nodes)| + 1 && nodes[..|old(nodes)|] == old(nodes)
      ensures fresh(nodes[|old(nodes)|]) && nodes[|old(nodes)|].expr == id
    {
      var node := new CompGraphNode(id);
      GrowTable(nodes, exprToNode, node);
      GrowGraph(heap.objects, variables, nodes, node, exprToNode[id := node], chained, sourced);
      nodes := nodes + [node];
      exprToNode := exprToNode[id := node];
    }

    /** The node of an object, made and appended to the worklist when it is met first. */
    method Meet(id: Id, chained: nat, sourced: nat) returns (node: CompGraphNode)
      requires chained <= |nodes| && sourced <= |nodes| && id in heap.objects
      requires Graph(heap.objects, variables, nodes, exprToNode, chained, sourced)
      modifies this`nodes, this`exprToNode
      ensures Graph(heap.objects, variables, nodes, exprToNode, chained, sourced)
      ensures node in nodes && node.expr == id
      ensures old(nodes) <= nodes
      ensures forall k :: |old(nodes)| <= k < |nodes| ==> fresh(nodes[k]) && id == nodes[k].expr
    {
      if id !in exprToNode {
        AddNode(id, chained, sourced);
      }
      node := exprToNode[id];
    }

    /** Records that `cur` follows `node` on its stream. */
    method FollowPrev(cur: CompGraphNode, node: CompGraphNode)
      requires Follows(nodes) && FollowersKnown(nodes) && cur in nodes && node in nodes
      requires cur.prevNode == null
      modifies cur`prevNode, node`nextNodes
      ensures Follows(nodes) && FollowersKnown(nodes) && cur.prevNode == node
    {
      cur.prevNode := node;
      node.AddNextNode(cur);
      forall m, x | m in nodes && x in nodes
        ensures multiset(m.nextNodes)[x] == Uses(x, m)
      {
        assert multiset(old(m.nextNodes))[x] == old(Uses(x, m));
      }
    }

    /** Records that `cur` reads the variable that `node` defines. */
    method FollowSource(cur: CompGraphNode, node: CompGraphNode)
      requires Follows(nodes) && FollowersKnown(nodes) && cur in nodes && node in nodes
      requires cur.sourceNode == null
      modifies cur`sourceNode, node`nextNodes
      ensures Follows(nodes) && FollowersKnown(nodes) && cur.sourceNode == node
    {
      cur.sourceNode := node;
      node.AddNextNode(cur);
      forall m, x | m in nodes && x in nodes
        ensures multiset(m.nextNodes)[x] == Uses(x, m)
      {
        assert multiset(old(m.nextNodes))[x] == old(Uses(x, m));
      }
    }

    method Chain(head: nat, cur: CompGraphNode, node: CompGraphNode)
      requires head < |nodes| && nodes[head] == cur && node in nodes
      requires Graph(heap.objects, variables, nodes, exprToNode, head, head)
      requires heap.objects[cur.expr].prev == Some(node.expr)
      modifies cur`prevNode, node`nextNodes
      ensures Graph(heap.objects, variables, nodes, exprToNode, head + 1, head)
    {
      OnlyAt(nodes, exprToNode, head);
      FollowPrev(cur, node);
    }

    method Source(head: nat, cur: CompGraphNode, node: CompGraphNode)
      requires head < |nodes| && nodes[head] == cur && node in nodes
      requires Graph(heap.objects, variables, nodes, exprToNode, head + 1, head)
      requires SourceOf(heap.objects, variables, cur.expr) == Some(node.expr)
      modifies cur`sourceNode, node`nextNodes
      ensures Graph(heap.objects, variables, nodes, exprToNode, head + 1, head + 1)
    {
      OnlyAt(nodes, exprToNode, head);
      FollowSource(cur, node);
    }

    method LinkPrev(head: nat, prev: Id)
      requires head < |nodes| && prev in heap.objects
      requires Graph(heap.objects, variables, nodes, exprToNode, head, head)
      requires heap.objects[nodes[head].expr].prev == Some(prev)
      modifies this`nodes, this`exprToNode, nodes
      ensures Graph(heap.objects, variables, nodes, exprToNode, head + 1, head)
      ensures old(nodes) <= nodes
      ensures forall k :: |old(nodes)| <= k < |nodes| ==> fresh(nodes[k]) && nodes[k].expr == prev
    {
      var cur := nodes[head];
      var node := Meet(prev, head, head);
      Chain(head, cur, node);
    }

    method VisitPrev(head: nat)
      requires Closed(heap.objects, variables) && head < |nodes|
      requires Graph(heap.objects, variables, nodes, exprToNode, head, head)
      modifies this`nodes, this`exprToNode, nodes
      ensures Graph(heap.objects, variables, nodes, exprToNode, head + 1, head)
      ensures old(nodes) <= nodes && heap.objects == old(heap.objects)
      ensures forall k :: |old(nodes)| <= k < |nodes| ==>
                fresh(nodes[k]) && Some(nodes[k].expr) == heap.objects[nodes[head].expr].prev
    {
      var prev := heap.objects[nodes[head].expr].prev;
      if prev.Some? {
        LinkPrev(head, prev.value);
      } else {
        NothingToLink(heap.objects, variables, nodes, head, head);
      }
    }

    method LinkSource(head: nat, source: Id)
      requires head < |nodes| && source in heap.objects
      requires Graph(heap.objects, variables, nodes, exprToNode, head + 1, head)
      requires SourceOf(heap.objects, variables, nodes[head].expr) == Some(source)
      modifies this`nodes, this`exprToNode, nodes
      ensures Graph(heap.objects, variables, nodes, exprToNode, head + 1, head + 1)
      ensures old(nodes) <= nodes
      ensures forall k :: |old(nodes)| <= k < |nodes| ==> fresh(nodes[k]) && nodes[k].expr == source
    {
      var cur := nodes[head];
      var node := Meet(source, head + 1, head);
      Source(head, cur, node);
    }

    method VisitSource(head: nat)
      requires Closed(heap.objects, variables) && head < |nodes|
      requires Graph(heap.objects, variables, nodes, exprToNode, head + 1, head)
      modifies this`nodes, this`exprToNode, nodes
      ensures Graph(heap.objects, variables, nodes, exprToNode, head + 1, head + 1)
      ensures old(nodes) <= nodes && heap.objects == old(heap.objects)
      ensures forall k :: |old(nodes)| <= k < |nodes| ==>
                fresh(nodes[k]) && Some(nodes[k].expr) == SourceOf(heap.objects, variables, nodes[head].expr)
    {
      var source := SourceOf(heap.objects, variables, nodes[head].expr);
      if source.Some? {
        LinkSource(head, source.value);
      } else {
        NothingToLink(heap.objects, variables, nodes, head + 1, head);
      }
    }

    /** Both links of the node at the head of the worklist. */
    method Visit(head: nat)
      requires Closed(heap.objects, variables) && head < |nodes|
      requires Graph(heap.objects, variables, nodes, exprToNode, head, head)
      modifies this`nodes, this`exprToNode, nodes
      ensures Graph(heap.objects, variables, nodes, exprToNode, head + 1, head + 1)
      ensures old(nodes) <= nodes && heap.objects == old(heap.objects)
      ensures forall k :: |old(nodes)| <= k < |nodes| ==>
                fresh(nodes[k]) && DependsOn(heap.objects, variables, nodes[head].expr, nodes[k].expr)
    {
      VisitPrev(head);
      VisitSource(head);
    }

    /** The worklist has processed its first `head` nodes. */
    ghost predicate Building(before: Heap, rename: map<Pid, nat>, head: nat)
      reads this, heap, nodes
    {
      && head <= |nodes| && 0 < |nodes| && nodes[0] == lastNode
      && Closed(heap.objects, variables)
      && Graph(heap.objects, variables, nodes, exprToNode, head, head)
      && (forall k :: 0 <= k < |nodes| ==> Reachable(before, variables, lastNode.expr, nodes[k].expr))
      && Renaming(rename) && RelabelledUpTo(before, heap.objects, rename, nodes, head)
    }

    lemma StartIsBuilding()
      requires nodes == [lastNode] && exprToNode == map[lastNode.expr := lastNode]
      requires lastNode.expr in heap.objects && Closed(heap.objects, variables)
      requires lastNode.nextNodes == [] && lastNode.prevNode == null && lastNode.sourceNode == null
      ensures Building(heap.objects, map[], 0)
    {
      StartOfGraph(heap.objects, variables, lastNode);
    }

    /** What the visit adds to the worklist is reached, and not labelled yet. */
    method Explore(head: nat, was: map<Pid, nat>, ghost before: Heap)
      requires Building(before, was, head) && head < |nodes|
      modifies this`nodes, this`exprToNode, nodes
      ensures heap.objects == old(heap.objects) && Closed(heap.objects, variables)
      ensures Graph(heap.objects, variables, nodes, exprToNode, head + 1, head + 1)
      ensures 0 < |nodes| && nodes[0] == lastNode && head < |nodes|
      ensures forall k :: 0 <= k < |nodes| ==> Reachable(before, variables, lastNode.expr, nodes[k].expr)
      ensures RelabelledUpTo(before, heap.objects, was, nodes, head)
      ensures old(nodes) <= nodes && forall k :: |old(nodes)| <= k < |nodes| ==> fresh(nodes[k])
    {
      ghost var known, objects := nodes, heap.objects;
      Visit(head);
      LabelsOfPrefix(before, objects, was, known, nodes, head);
      ReachesAdded(before, objects, variables, lastNode.expr, known, nodes, head);
    }

    method SetLabel(id: Id, pid: Pid, ghost rename: map<Pid, nat>, ghost head: nat, ghost before: Heap)
      requires id in heap.objects && head < |nodes| && nodes[0] == lastNode
      requires forall k :: 0 <= k < |nodes| ==> Reachable(before, variables, lastNode.expr, nodes[k].expr)
      requires var objects := heap.objects[id := heap.objects[id].(pid := pid)];
               && Closed(objects, variables)
               && Graph(objects, variables, nodes, exprToNode, head + 1, head + 1)
               && Renaming(rename) && RelabelledUpTo(before, objects, rename, nodes, head + 1)
      modifies heap
      ensures Building(before, rename, head + 1)
    {
      heap.objects := heap.objects[id := heap.objects[id].(pid := pid)];
    }

    method BuildStep(head: nat, was: map<Pid, nat>, ghost before: Heap) returns (rename: map<Pid, nat>)
      requires Building(before, was, head) && head < |nodes|
      modifies this`nodes, this`exprToNode, heap, nodes
      ensures Building(before, rename, head + 1)
      ensures old(nodes) <= nodes && forall k :: |old(nodes)| <= k < |nodes| ==> fresh(nodes[k])
    {
      Explore(head, was, before);
      rename := Label(head, was, before);
    }

    /** The object of a visited node gets the label of its stream, a new one if its tracer is met first. */
    method Label(head: nat, was: map<Pid, nat>, ghost before: Heap) returns (rename: map<Pid, nat>)
      requires Renaming(was) && Closed(heap.objects, variables) && head < |nodes| && nodes[0] == lastNode
      requires Graph(heap.objects, variables, nodes, exprToNode, head + 1, head + 1)
      requires forall k :: 0 <= k < |nodes| ==> Reachable(before, variables, lastNode.expr, nodes[k].expr)
      requires RelabelledUpTo(before, heap.objects, was, nodes, head)
      modifies heap
      ensures Building(before, rename, head + 1)
    {
      LabelStep(before, heap.objects, nodes, was, head);
      var id := nodes[head].expr;
      rename := was;
      if heap.objects[id].pid !in rename {
        rename := rename[heap.objects[id].pid := |rename|];
      }
      GraphIgnoresLabels(heap.objects, WithLabel(heap.objects, id, rename), variables, nodes, exprToNode, head + 1);
      SetLabel(id, Stream(rename[heap.objects[id].pid]), rename, head, before);
    }

    /** The worklist: every object the last node depends on gets one node, linked to the nodes it
        follows, and a new label for its stream. */
    method BuildGraph()
      requires Building(heap.objects, map[], 0) && nodes == [lastNode]
      modifies this`nodes, this`exprToNode, this`all, this`streams, heap, lastNode
      ensures nodes == all && lastNode in all
      ensures Graph(heap.objects, variables, all, exprToNode, |all|, |all|)
      ensures AreReached(old(heap.objects), variables, lastNode.expr, Exprs(all))
      ensures Renaming(streams) && RelabelledUpTo(old(heap.objects), heap.objects, streams, all, |all|)
    {
      var rename := Worklist();
      ReachesAll(old(heap.objects), heap.objects, variables, nodes, exprToNode);
      Remember(rename);
    }

    ghost method Remember(rename: map<Pid, nat>)
      requires Graph(heap.objects, variables, nodes, exprToNode, |nodes|, |nodes|)
      modifies this`all, this`streams
      ensures nodes == all && streams == rename
      ensures Graph(heap.objects, variables, all, exprToNode, |all|, |all|)
    {
      streams, all := rename, nodes;
    }

    lemma HeadFits(before: Heap, rename: map<Pid, nat>, head: nat)
      requires Building(before, rename, head) && head < |nodes|
      ensures head < |before|
    {
      DistinctFits(Exprs(nodes), before.Keys);
    }

    method Worklist() returns (rename: map<Pid, nat>)
      requires Building(heap.objects, map[], 0) && nodes == [lastNode]
      modifies this`nodes, this`exprToNode, heap, lastNode
      ensures Building(old(heap.objects), rename, |nodes|)
    {
      rename := map[];
      ghost var before := heap.objects;
      var head := 0;
      while head < |nodes|
        invariant Building(before, rename, head)
        invariant forall k :: 0 <= k < |nodes| ==> nodes[k] == lastNode || fresh(nodes[k])
        decreases |before| - head
      {
        HeadFits(before, rename, head);
        rename := BuildStep(head, rename, before);
        head := head + 1;
      }
    }

    /** The nodes that wait for nothing. */
    method Roots() returns (prevd: map<CompGraphNode, nat>, cand: seq<CompGraphNode>)
      requires Distinct(nodes)
      ensures Counted(nodes, prevd, [], cand)
    {
      prevd, cand := map[], [];
      for i := 0 to |nodes|
        invariant forall x :: x in prevd <==> x in nodes[..i]
        invariant forall x :: x in prevd ==> prevd[x] == Pending(x, [])
        invariant forall x :: x in cand <==> x in prevd && prevd[x] == 0
        invariant Distinct(cand)
      {
        var x := nodes[i];
        assert x !in nodes[..i];
        prevd := prevd[x := (if x.prevNode != null then 1 else 0) + (if x.sourceNode != null then 1 else 0)];
        if prevd[x] == 0 {
          cand := cand + [x];
        }
        assert nodes[..i + 1] == nodes[..i] + [x];
      }
      assert nodes[..|nodes|] == nodes;
    }

    /** Listing a node releases the nodes that follow it, twice when they follow it twice. */
    method Release(head: CompGraphNode, was: map<CompGraphNode, nat>, listed: seq<CompGraphNode>,
                   waiting: seq<CompGraphNode>)
      returns (prevd: map<CompGraphNode, nat>, cand: seq<CompGraphNode>)
      requires Follows(nodes) && FollowersKnown(nodes) && head in nodes
      requires Counted(nodes, was, listed, [head] + waiting)
      ensures Counted(nodes, prevd, listed + [head], cand)
    {
      prevd, cand := was, waiting;
      StartReleasing(nodes, head, was, listed, waiting);
      for i := 0 to |head.nextNodes|
        invariant Releasing(nodes, head, listed, prevd, cand, i)
      {
        var x := head.nextNodes[i];
        ReleasesOne(nodes, head, listed, prevd, cand, i);
        prevd := prevd[x := prevd[x] - 1];
        if prevd[x] == 0 {
          cand := cand + [x];
        }
      }
      EndReleasing(nodes, head, listed, prevd, cand);
    }

    lemma ListsHead(prevd: map<CompGraphNode, nat>, newList: seq<CompGraphNode>, cand: seq<CompGraphNode>)
      requires Distinct(nodes) && cand != [] && Counted(nodes, prevd, newList, cand) && Sorted(newList)
      ensures cand == [cand[0]] + cand[1..] && cand[0] in nodes
      ensures |newList| < |nodes| && Sorted(newList + [cand[0]])
    {
      var head := cand[0];
      assert cand == [head] + cand[1..];
      HeadIsListed(nodes, prevd, newList, head, cand[1..]);
      ListedFits(newList + [head], nodes);
      SortedGrows(newList, head);
    }

    /** Kahn's algorithm. The nodes are replaced by those that can be listed, each once and after
        everything it waits for; on a cyclic graph some cannot. */
    method TopologicalSort()
      requires Distinct(nodes) && Follows(nodes) && FollowersKnown(nodes)
      modifies this`nodes
      ensures Sorted(nodes)
      ensures forall x :: x in nodes ==> x in old(nodes)
      ensures DownwardComplete(old(nodes), nodes)
    {
      var prevd, cand := Roots();
      var newList: seq<CompGraphNode> := [];
      while cand != []
        invariant nodes == old(nodes) && Counted(nodes, prevd, newList, cand)
        invariant Sorted(newList) && |newList| <= |nodes|
        decreases |nodes| - |newList|
      {
        var head := cand[0];
        ListsHead(prevd, newList, cand);
        prevd, cand := Release(head, prevd, newList, cand[1..]);
        newList := newList + [head];
      }
      nodes := newList;
    }
  }
}
