/** Forking an executor and joining the children again: by concatenating their text, by
    concatenating their KV caches, or by gathering their variables. */
module ForkJoin {
  import opened Prelude
  import opened Ir
  import opened ChatTemplates
  import opened Executor
  import opened Tracer
  import opened PrefixTracing

  // ----- what a child inherits -----

  /** All that a program can see or that a later expression goes by is the same. */
  predicate SameSituation(e: Exec, e': Exec) {
    e.text == e'.text && e.variables == e'.variables && e.messages == e'.messages && e.curRole == e'.curRole &&
    e.roleBegin == e'.roleBegin
  }

  predicate SameOutcome(r: Result<Exec>, r': Result<Exec>) {
    if r.Ok? && r'.Ok? then SameSituation(r.value, r'.value) else r == r'
  }

  lemma ElementGoesOn(w: World, template: ChatTemplate, e: Exec, e': Exec, x: Expr)
    requires SameSituation(e, e')
    ensures SameOutcome(RunElement(w, template, e, x), RunElement(w, template, e', x))
  {
    if x.RoleBegin? {
      BeginGoesOn(template, e, e', x.role);
    } else if x.RoleEnd? {
      CloseGoesOn(template, e, e', x.role);
    }
  }

  lemma BeginGoesOn(template: ChatTemplate, e: Exec, e': Exec, role: string)
    requires SameSituation(e, e')
    ensures SameOutcome(BeginRole(e, template, role), BeginRole(e', template, role))
  {
  }

  lemma CloseGoesOn(template: ChatTemplate, e: Exec, e': Exec, role: string)
    requires SameSituation(e, e')
    ensures SameSituation(CloseRole(e, template, role), CloseRole(e', template, role))
  {
  }

  lemma {:induction false} SameSituationGoesOn(w: World, template: ChatTemplate, e: Exec, e': Exec, xs: seq<Expr>)
    requires SameSituation(e, e')
    ensures SameOutcome(RunElements(w, template, e, xs), RunElements(w, template, e', xs))
    decreases |xs|
  {
    if xs != [] {
      ElementGoesOn(w, template, e, e', xs[0]);
      var r, r' := RunElement(w, template, e, xs[0]), RunElement(w, template, e', xs[0]);
      if r.Ok? {
        SameSituationGoesOn(w, template, r.value, r'.value, xs[1..]);
      }
    }
  }

  /** A child goes on as its parent would: in every world, whatever is executed, it fails as the parent would
      or has the same text, variables, messages and role. */
  lemma ChildGoesOnAsParent(w: World, template: ChatTemplate, parent: Exec, xs: seq<Expr>)
    ensures SameOutcome(RunElements(w, template, Forked(parent), xs), RunElements(w, template, parent, xs))
  {
    SameSituationGoesOn(w, template, Forked(parent), parent, xs);
  }

  // ----- concatenation -----

  /** A child after executing any expressions since it was forked from the parent. */
  ghost predicate IsChildOf(parent: Exec, child: Exec) {
    exists w: World, template: ChatTemplate, xs: seq<Expr> ::
      RunElements(w, template, Forked(parent), xs) == Ok(child)
  }

  lemma {:induction false} ForkPositionStays(w: World, template: ChatTemplate, e: Exec, xs: seq<Expr>)
    requires RunElements(w, template, e, xs).Ok?
    ensures RunElements(w, template, e, xs).value.forkStart == e.forkStart
    decreases |xs|
  {
    if xs != [] {
      ForkPositionStays(w, template, RunElement(w, template, e, xs[0]).value, xs[1..]);
    }
  }

  /** Whatever a child has executed, its text is the parent's text at the fork and then its own. */
  lemma ChildExtendsParent(parent: Exec, child: Exec)
    requires IsChildOf(parent, child)
    ensures child.text == parent.text + Addition(child)
    ensures child.forkStart == Some(|parent.text|)
  {
    var w: World, template: ChatTemplate, xs: seq<Expr> :| RunElements(w, template, Forked(parent), xs) == Ok(child);
    TextOnlyGrows(w, template, Forked(parent), xs);
    ForkPositionStays(w, template, Forked(parent), xs);
  }

  /** What the children added, one after the other. */
  function OwnText(parent: Exec, children: seq<Exec>): string {
    if children == [] then ""
    else
      OwnText(parent, children[..|children| - 1]) + Drop(children[|children| - 1].text, |parent.text|)
  }

  lemma {:induction false} AdditionsAreOwnText(parent: Exec, children: seq<Exec>)
    requires forall c :: c in children ==> IsChildOf(parent, c)
    ensures Additions(children) == OwnText(parent, children)
    ensures Aligned(children, |parent.text|) == |children|
  {
    if children != [] {
      var init, last := children[..|children| - 1], children[|children| - 1];
      assert forall c :: c in init ==> c in children;
      AdditionsAreOwnText(parent, init);
      ChildExtendsParent(parent, last);
      forall i | 0 <= i < |children|
        ensures children[i].forkStart == Some(|parent.text|)
      {
        ChildExtendsParent(parent, children[i]);
      }
    }
  }

  /** Joining by text gives the text of the parent, which may have grown since the fork, followed by
      what each child added, in the order of the children. */
  lemma JoinedText(parent: Exec, now: Exec, children: seq<Exec>)
    requires forall c :: c in children ==> IsChildOf(parent, c)
    ensures JoinText(now, children).text == now.text + OwnText(parent, children)
  {
    AdditionsAreOwnText(parent, children);
  }

  /** Joining by KV cache gives the same text as joining by text exactly when there are no children or
      the parent has the length it was forked at; otherwise it fails and leaves the text as it was. */
  lemma KvJoinIsTextJoin(parent: Exec, now: Exec, children: seq<Exec>)
    requires forall c :: c in children ==> IsChildOf(parent, c)
    ensures JoinedKv(now.text, children) == (true, JoinText(now, children).text) <==>
            children == [] || |now.text| == |parent.text|
    ensures children != [] && |now.text| != |parent.text| ==> JoinedKv(now.text, children) == (false, now.text)
  {
    AdditionsAreOwnText(parent, children);
    if children != [] && |now.text| != |parent.text| {
      ChildExtendsParent(parent, children[0]);
      assert children[0].forkStart != Some(|now.text|);
      assert Aligned(children, |now.text|) == 0;
      assert now.text + Additions(children[..0]) == now.text;
    } else {
      assert children[..|children|] == children;
    }
  }

  /** A child that was not forked at the length of the text ends the KV join: the children before it have been
      appended by then, and those after it are not. */
  lemma KvJoinStops(text: string, children: seq<Exec>, child: Exec, rest: seq<Exec>)
    requires forall c :: c in children ==> c.forkStart == Some(|text|)
    requires child.forkStart != Some(|text|)
    ensures JoinedKv(text, children + [child] + rest) == (false, text + Additions(children))
  {
    var all := children + [child] + rest;
    AlignedStops(children, child, rest, |text|);
    assert all[..|children|] == children;
  }

  lemma {:induction false} AlignedStops(children: seq<Exec>, child: Exec, rest: seq<Exec>, length: nat)
    requires forall c :: c in children ==> c.forkStart == Some(length)
    requires child.forkStart != Some(length)
    ensures Aligned(children + [child] + rest, length) == |children|
    decreases |children|
  {
    if children != [] {
      AlignedStops(children[1..], child, rest, length);
      assert (children + [child] + rest)[1..] == children[1..] + [child] + rest;
    }
  }

  /** The additions of some children and then of others, one child being what is behind its fork position. */
  lemma {:induction false} AdditionsInOrder(a: seq<Exec>, b: seq<Exec>)
    ensures Additions(a + b) == Additions(a) + Additions(b)
    decreases |b|
  {
    if b == [] {
      assert a + b == a;
    } else {
      var init, last := b[..|b| - 1], b[|b| - 1];
      AdditionsInOrder(a, init);
      assert (a + b)[..|a + b| - 1] == a + init;
      AppendTwice(Additions(a), Additions(init), Addition(last));
    }
  }

  lemma OneAddition(child: Exec, before: string, own: string)
    requires child.text == before + own && child.forkStart == Some(|before|)
    ensures Additions([child]) == own
  {
    assert [child][..0] == [];
  }

  // ----- gathering variables -----

  datatype Value = Plain(value: string) | Gathered(items: seq<Value>)

  type Variables = map<Key, Value>

  /** The values that the children have under a name, in the order of the children. */
  function ValuesOf(children: seq<Variables>, key: Key): seq<Value> {
    if children == [] then []
    else
      var last := children[|children| - 1];
      ValuesOf(children[..|children| - 1], key) + (if key in last then [last[key]] else [])
  }

  /** The values of some children and then of others, one child giving what it has. */
  lemma {:induction false} ValuesInOrder(a: seq<Variables>, b: seq<Variables>, key: Key)
    ensures ValuesOf(a + b, key) == ValuesOf(a, key) + ValuesOf(b, key)
    decreases |b|
  {
    if b == [] {
      assert a + b == a;
    } else {
      var init := b[..|b| - 1];
      ValuesInOrder(a, init, key);
      assert (a + b)[..|a + b| - 1] == a + init;
    }
  }

  lemma OneValue(child: Variables, key: Key)
    ensures ValuesOf([child], key) == if key in child then [child[key]] else []
  {
    assert [child][..0] == [];
  }

  /** What a join does to the variables of the parent. */
  ghost predicate IsGathering(before: Variables, children: seq<Variables>, after: Variables) {
    && (forall key :: key in before ==> key in after && after[key] == before[key])
    && (forall key :: key in after <==> key in before || exists c :: c in children && key in c)
    && (forall key :: key in after && key !in before ==> after[key] == Gathered(ValuesOf(children, key)))
  }

  /** The dictionary of variables of one executor. */
  class VariableTable {
    var variables: Variables

    constructor (variables: Variables)
      ensures this.variables == variables
    {
      this.variables := variables;
    }
  }

  ghost function Tables(states: seq<VariableTable>): (r: seq<Variables>)
    reads states
    ensures |r| == |states| && forall i :: 0 <= i < |r| ==> r[i] == states[i].variables
  {
    if states == [] then [] else [states[0].variables] + Tables(states[1..])
  }

  class ProgramStateGroup {
    const states: seq<VariableTable>
    const srcState: VariableTable

    constructor (states: seq<VariableTable>, srcState: VariableTable)
      ensures this.states == states && this.srcState == srcState
    {
      this.states, this.srcState := states, srcState;
    }

    method JoinGatherVariables()
      requires srcState !in states
      modifies srcState
      ensures IsGathering(old(srcState.variables), old(Tables(states)), srcState.variables)
    {
      ghost var before := srcState.variables;
      ghost var children := Tables(states);
      var srcVarSet := srcState.variables.Keys;
      for i := 0 to |states|
        invariant Gathers(before, children[..i], srcState.variables)
      {
        var childVars := states[i].variables;
        assert childVars == children[i];
        GatherChild(srcVarSet, childVars, children[..i]);
        assert children[..i + 1] == children[..i] + [children[i]];
        GathersOneMore(before, children[..i], children[i], srcState.variables);
      }
      assert children[..|states|] == children;
      GathersIsGathering(before, children, srcState.variables);
    }

    /** One child's new variables, in any order. */
    method GatherChild(srcVarSet: set<Key>, childVars: Variables, ghost done: seq<Variables>)
      modifies srcState
      requires forall key :: key in srcState.variables && key !in srcVarSet ==>
                 srcState.variables[key] == Gathered(ValuesOf(done, key))
      requires forall key :: key !in srcState.variables ==> ValuesOf(done, key) == []
      requires srcVarSet <= srcState.variables.Keys
      ensures srcState.variables.Keys == old(srcState.variables.Keys) + childVars.Keys
      ensures forall key :: key in old(srcState.variables) && (key in srcVarSet || key !in childVars) ==>
                srcState.variables[key] == old(srcState.variables[key])
      ensures forall key :: key in childVars && key !in srcVarSet ==>
                srcState.variables[key] == Gathered(ValuesOf(done, key) + [childVars[key]])
    {
      var newVars := childVars.Keys - srcVarSet;
      ghost var before := srcState.variables;
      while newVars != {}
        invariant newVars <= childVars.Keys - srcVarSet
        invariant srcState.variables.Keys == before.Keys + (childVars.Keys - srcVarSet - newVars)
        invariant forall key :: key in before && (key in srcVarSet || key !in childVars || key in newVars) ==>
                    srcState.variables[key] == before[key]
        invariant forall key :: key in childVars && key !in srcVarSet && key !in newVars ==>
                    srcState.variables[key] == Gathered(ValuesOf(done, key) + [childVars[key]])
        decreases newVars
      {
        var k :| k in newVars;
        newVars := newVars - {k};
        if k in srcState.variables {
          srcState.variables := srcState.variables[k := Gathered(srcState.variables[k].items + [childVars[k]])];
        } else {
          srcState.variables := srcState.variables[k := Gathered([childVars[k]])];
        }
      }
    }
  }

  /** The state of a join after some of the children. */
  ghost predicate Gathers(before: Variables, done: seq<Variables>, now: Variables) {
    && before.Keys <= now.Keys
    && (forall key :: key in before ==> now[key] == before[key])
    && (forall key :: key in now && key !in before ==>
          ValuesOf(done, key) != [] && now[key] == Gathered(ValuesOf(done, key)))
    && (forall key :: key !in now ==> ValuesOf(done, key) == [])
  }

  lemma GathersOneMore(before: Variables, done: seq<Variables>, child: Variables, now: Variables)
    requires before.Keys <= now.Keys
    requires forall key :: key in before ==> now[key] == before[key]
    requires forall key :: key in now && key !in before && key !in child ==>
               ValuesOf(done, key) != [] && now[key] == Gathered(ValuesOf(done, key))
    requires forall key :: key in now && key !in before && key in child ==>
               now[key] == Gathered(ValuesOf(done, key) + [child[key]])
    requires forall key :: key !in now ==> key !in child && ValuesOf(done, key) == []
    ensures Gathers(before, done + [child], now)
  {
    forall key
      ensures ValuesOf(done + [child], key) == ValuesOf(done, key) + if key in child then [child[key]] else []
    {
      ValuesOneMore(done, child, key);
    }
  }

  lemma ValuesOneMore(done: seq<Variables>, child: Variables, key: Key)
    ensures ValuesOf(done + [child], key) == ValuesOf(done, key) + if key in child then [child[key]] else []
  {
    assert (done + [child])[..|done|] == done;
  }

  lemma {:induction false} ValuesExist(children: seq<Variables>, key: Key)
    ensures ValuesOf(children, key) != [] <==> exists c :: c in children && key in c
  {
    if children != [] {
      var init, last := children[..|children| - 1], children[|children| - 1];
      ValuesExist(init, key);
      assert children == init + [last];
    }
  }

  lemma GathersIsGathering(before: Variables, children: seq<Variables>, now: Variables)
    requires Gathers(before, children, now)
    ensures IsGathering(before, children, now)
  {
    forall key
      ensures key in now <==> key in before || exists c :: c in children && key in c
    {
      ValuesExist(children, key);
    }
  }
}
