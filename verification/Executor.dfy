/** One stream executor: the state it keeps and what each kind of expression
    does to it when it is executed without a worker thread. */
module Executor {
  import opened Prelude
  import opened Ir
  import opened ChatTemplates

  /** The fields of a stream executor that executing an expression reads or writes. */
  datatype Exec = Exec(
    text: string,
    variables: map<Key, string>,
    messages: seq<Message>,
    curRole: Option<string>,
    roleBegin: Option<nat>,
    forkStart: Option<nat>,
    speculated: string)

  const FRESH: Exec := Exec("", map[], [], None, None, None, "")

  function Fill(e: Exec, value: string): Exec {
    e.(speculated := if IsPrefix(value, e.speculated) then e.speculated[|value|..] else "",
       text := e.text + value)
  }

  /** A completion is appended to the text and stored under the name of the gen. */
  function Complete(e: Exec, key: Key, completion: string): Exec {
    e.(text := e.text + completion, variables := e.variables[key := completion])
  }

  /** An unnamed select stores nothing. */
  function Decide(e: Exec, key: Key, decision: string): Exec {
    e.(text := e.text + decision,
       variables := if key.Some? then e.variables[key := decision] else e.variables)
  }

  function PlainGen(e: Exec, backend: Backend, key: Key, params: Params): Exec {
    Complete(e, key, backend.generate(e.text, params))
  }

  // ----- stop strings -----

  function FindFrom(s: string, w: string, i: nat): Option<nat>
    requires i <= |s|
    decreases |s| - i
  {
    if OccursAt(s, w, i) then Some(i)
    else if i == |s| then None
    else FindFrom(s, w, i + 1)
  }

  function Find(s: string, w: string): Option<nat> {
    FindFrom(s, w, 0)
  }

  function Earlier(a: Option<nat>, b: Option<nat>): Option<nat> {
    if b.Some? && (a.None? || b.value < a.value) then b else a
  }

  /** Where the earliest of the stop strings begins. */
  function FirstStop(s: string, stops: seq<string>): Option<nat> {
    if stops == [] then None
    else Earlier(FirstStop(s, stops[..|stops| - 1]), Find(s, stops[|stops| - 1]))
  }

  lemma {:induction false} FindFromIsFirst(s: string, w: string, i: nat)
    requires i <= |s|
    ensures FindFrom(s, w, i).Some? ==>
              i <= FindFrom(s, w, i).value <= |s| && OccursAt(s, w, FindFrom(s, w, i).value)
    ensures forall q: nat :: i <= q && OccursAt(s, w, q) ==>
              FindFrom(s, w, i).Some? && FindFrom(s, w, i).value <= q
    decreases |s| - i
  {
    if !OccursAt(s, w, i) && i < |s| {
      FindFromIsFirst(s, w, i + 1);
    }
  }

  predicate StopAt(s: string, stops: seq<string>, p: nat) {
    exists w :: w in stops && OccursAt(s, w, p)
  }

  /** The position found carries a stop string, no earlier position does, and nothing
      is found only when no stop string occurs at all. */
  lemma {:induction false} FirstStopIsEarliest(s: string, stops: seq<string>)
    ensures FirstStop(s, stops).Some? ==>
              FirstStop(s, stops).value <= |s| && StopAt(s, stops, FirstStop(s, stops).value)
    ensures forall q: nat :: StopAt(s, stops, q) ==>
              FirstStop(s, stops).Some? && FirstStop(s, stops).value <= q
  {
    if stops != [] {
      var init, last := stops[..|stops| - 1], stops[|stops| - 1];
      FirstStopIsEarliest(s, init);
      FindFromIsFirst(s, last, 0);
      assert stops == init + [last];
      forall q: nat | StopAt(s, stops, q)
        ensures FirstStop(s, stops).Some? && FirstStop(s, stops).value <= q
      {
        var w :| w in stops && OccursAt(s, w, q);
        if w in init {
          assert StopAt(s, init, q);
        }
      }
      if FirstStop(s, init).Some? {
        var w :| w in init && OccursAt(s, w, FirstStop(s, init).value);
        assert w in stops;
      }
    }
  }

  lemma CutAtFirstStop(pool: string, stops: seq<string>)
    ensures FirstStop(pool, stops).Some? <==> exists q: nat :: StopAt(pool, stops, q)
    ensures FirstStop(pool, stops).Some? ==>
              && FirstStop(pool, stops).value <= |pool| && StopAt(pool, stops, FirstStop(pool, stops).value)
              && forall q: nat :: StopAt(pool, stops, q) ==> FirstStop(pool, stops).value <= q
  {
    FirstStopIsEarliest(pool, stops);
  }

  // ----- speculative generation -----

  /** The single request made ahead of use: no stop strings, and at least the given number of tokens. */
  function Regenerated(e: Exec, backend: Backend, params: Params, ahead: nat): string {
    backend.generate(e.text, params.(maxNewTokens := Max(params.maxNewTokens, ahead), stop := None))
  }

  /** What a gen takes from the speculated text, and the limit it cut at when no stop string was found. */
  function SpecSplit(speculated: string, params: Params, limit: nat): nat {
    if params.stop.None? then Min(params.maxNewTokens, |speculated|)
    else
      var stop := FirstStop(speculated, params.stop.value);
      if stop.Some? then Min(stop.value, |speculated|) else Min(limit, |speculated|)
  }

  predicate NeedsRegen(e: Exec, params: Params) {
    if params.stop.None? then |e.speculated| < params.maxNewTokens else e.speculated == ""
  }

  /** The completion and the speculated text left over. When the reply was requested
      here, the token limit itself was raised to the size of the request. */
  function SpecGen(e: Exec, backend: Backend, params: Params, ahead: nat): (string, string) {
    var regen := NeedsRegen(e, params);
    var spec := if regen then Regenerated(e, backend, params, ahead) else e.speculated;
    var limit := if regen then Max(params.maxNewTokens, ahead) else params.maxNewTokens;
    var cut := SpecSplit(spec, params, limit);
    (spec[..cut], spec[cut..])
  }

  function SpeculativeGen(e: Exec, backend: Backend, key: Key, params: Params, ahead: nat): Exec {
    var (completion, rest) := SpecGen(e, backend, params, ahead);
    Complete(e.(speculated := rest), key, completion)
  }

  function Generate(e: Exec, backend: Backend, key: Key, params: Params, ahead: Option<nat>): Exec {
    if ahead.None? then PlainGen(e, backend, key, params)
    else SpeculativeGen(e, backend, key, params, ahead.value)
  }

  // ----- roles -----

  function OpenRole(e: Exec, template: ChatTemplate, role: string): Exec {
    var e' := Fill(e.(curRole := Some(role)), template.PrefixAndSuffix(role, e.messages).0);
    e'.(roleBegin := Some(|e'.text|))
  }

  function RoleBody(e: Exec): string {
    Drop(e.text, if e.roleBegin.Some? then e.roleBegin.value else 0)
  }

  function CloseRole(e: Exec, template: ChatTemplate, role: string): Exec {
    var content := Lstrip(RoleBody(e));
    var e' := Fill(e.(curRole := None), template.PrefixAndSuffix(role, e.messages).1);
    e'.(messages := e'.messages + [Message(role, Some(content))])
  }

  function SystemBlock(e: Exec, template: ChatTemplate): Exec
    requires template.defaultSystemPrompt.Some?
  {
    CloseRole(Fill(OpenRole(e, template, "system"), template.defaultSystemPrompt.value), template, "system")
  }

  function BeginRole(e: Exec, template: ChatTemplate, role: string): Result<Exec> {
    if e.curRole.Some? then Err(AssertionError)
    else if template.InsertsSystem(e.messages, role) then
      Ok(OpenRole(SystemBlock(e, template), template, role))
    else
      Ok(OpenRole(e, template, role))
  }

  /** What the default system block writes and records. */
  lemma SystemBlockWrites(e: Exec, template: ChatTemplate)
    requires template.defaultSystemPrompt.Some?
    ensures var prompt, e' := template.defaultSystemPrompt.value, SystemBlock(e, template);
            var (prefix, suffix) := template.PrefixAndSuffix("system", e.messages);
            && e'.text == e.text + prefix + prompt + suffix && e'.curRole.None?
            && e'.messages == e.messages + [Message("system", Some(Lstrip(prompt)))]
            && e'.variables == e.variables
  {
    var begun := OpenRole(e, template, "system");
    var filled := Fill(begun, template.defaultSystemPrompt.value);
    assert RoleBody(filled) == template.defaultSystemPrompt.value;
  }

  lemma RoleBegins(e: Exec, template: ChatTemplate, role: string)
    ensures BeginRole(e, template, role).Ok? <==> e.curRole.None?
    ensures e.curRole.None? ==>
              var e' := BeginRole(e, template, role).value;
              && e'.curRole == Some(role) && e'.roleBegin == Some(|e'.text|) && e'.variables == e.variables
              && (!template.InsertsSystem(e.messages, role) ==>
                    e'.text == e.text + template.PrefixAndSuffix(role, e'.messages).0 && e'.messages == e.messages)
              && (template.InsertsSystem(e.messages, role) ==>
                    var prompt := template.defaultSystemPrompt.value;
                    && e'.messages == e.messages + [Message("system", Some(Lstrip(prompt)))]
                    && e'.text == e.text + template.PrefixAndSuffix("system", e.messages).0 + prompt +
                                  template.PrefixAndSuffix("system", e.messages).1 +
                                  template.PrefixAndSuffix(role, e'.messages).0)
  {
    if e.curRole.None? && template.InsertsSystem(e.messages, role) {
      SystemBlockWrites(e, template);
    }
  }

  // ----- fork and join -----

  function Forked(e: Exec): Exec {
    e.(forkStart := Some(|e.text|), speculated := "")
  }

  /** What a child has added since it was forked. */
  function Addition(child: Exec): string {
    Drop(child.text, if child.forkStart.Some? then child.forkStart.value else 0)
  }

  function Additions(children: seq<Exec>): string {
    if children == [] then ""
    else Additions(children[..|children| - 1]) + Addition(children[|children| - 1])
  }

  lemma AdditionsGrow(children: seq<Exec>, i: nat)
    requires i < |children|
    ensures Additions(children[..i + 1]) == Additions(children[..i]) + Addition(children[i])
  {
    assert children[..i + 1][..i] == children[..i];
  }

  /** The number of leading children whose fork position is the given length. */
  function Aligned(children: seq<Exec>, length: nat): (n: nat)
    ensures n <= |children|
    ensures forall i :: 0 <= i < n ==> children[i].forkStart == Some(length)
    ensures n < |children| ==> children[n].forkStart != Some(length)
  {
    if children == [] || children[0].forkStart != Some(length) then 0
    else 1 + Aligned(children[1..], length)
  }

  /** The text path of a join. */
  function JoinText(e: Exec, children: seq<Exec>): Exec {
    Fill(e, Additions(children))
  }

  /** The KV-cache path of a join: it stops with a failed assertion, after the text of the
      children before it has already been added, at the first child not forked at this length. */
  function JoinedKv(text: string, children: seq<Exec>): (bool, string) {
    var n := Aligned(children, |text|);
    (n == |children|, text + Additions(children[..n]))
  }

  lemma AppendTwice(a: string, b: string, c: string)
    ensures (a + b) + c == a + (b + c)
  {
  }

  /** The texts of a KV join as it appends one child after the other. */
  predicate AreJoined(texts: seq<string>, text: string, children: seq<Exec>) {
    && |texts| == |children| + 1 && texts[0] == text
    && forall i :: 0 <= i < |children| ==> texts[i + 1] == texts[i] + Addition(children[i])
  }

  function JoinedTexts(text: string, children: seq<Exec>): seq<string> {
    seq(|children| + 1, i requires 0 <= i <= |children| => text + Additions(children[..i]))
  }

  lemma TextsAreJoined(text: string, children: seq<Exec>)
    ensures AreJoined(JoinedTexts(text, children), text, children)
  {
    forall i | 0 <= i < |children|
      ensures JoinedTexts(text, children)[i + 1] == JoinedTexts(text, children)[i] + Addition(children[i])
    {
      AdditionsGrow(children, i);
      AppendTwice(text, Additions(children[..i]), Addition(children[i]));
    }
  }

  /** The KV path of a join appends the children up to the first that was not forked at this length. */
  lemma JoinedIsKv(text: string, children: seq<Exec>)
    ensures var n := Aligned(children, |text|);
            JoinedKv(text, children) == (n == |children|, JoinedTexts(text, children)[n])
  {
  }

  ghost function States(executors: seq<StreamExecutor>): (s: seq<Exec>)
    reads executors
    ensures |s| == |executors| && forall i :: 0 <= i < |s| ==> s[i] == executors[i].State()
  {
    if executors == [] then [] else [executors[0].State()] + States(executors[1..])
  }

  class StreamExecutor {
    const backend: Backend
    const template: ChatTemplate
    const numApiSpecTokens: Option<nat>
    var text: string
    var variables: map<Key, string>
    var messages: seq<Message>
    var curRole: Option<string>
    var roleBegin: Option<nat>
    var forkStart: Option<nat>
    var speculated: string

    ghost function State(): Exec
      reads this
    {
      Exec(text, variables, messages, curRole, roleBegin, forkStart, speculated)
    }

    constructor (backend: Backend, template: ChatTemplate, numApiSpecTokens: Option<nat>)
      ensures State() == FRESH
      ensures text == "" && variables == map[] && messages == [] && speculated == ""
      ensures curRole == None && roleBegin == None && forkStart == None
      ensures this.backend == backend && this.template == template
      ensures this.numApiSpecTokens == numApiSpecTokens
    {
      this.backend, this.template, this.numApiSpecTokens := backend, template, numApiSpecTokens;
      text, variables, messages := "", map[], [];
      curRole, roleBegin, forkStart, speculated := None, None, None, "";
    }

    method ExecuteFill(value: string)
      modifies this
      ensures State() == Fill(old(State()), value)
      ensures text == old(text) + value
      ensures IsPrefix(value, old(speculated)) ==> value + speculated == old(speculated)
      ensures !IsPrefix(value, old(speculated)) ==> speculated == ""
      ensures variables == old(variables) && messages == old(messages) && curRole == old(curRole)
      ensures roleBegin == old(roleBegin) && forkStart == old(forkStart)
    {
      if IsPrefix(value, speculated) {
        speculated := speculated[|value|..];
      } else {
        speculated := "";
      }
      text := text + value;
    }

    method FindStop(stops: seq<string>) returns (pos: Option<nat>)
      ensures pos == FirstStop(speculated, stops)
    {
      pos := None;
      for i := 0 to |stops|
        invariant pos == FirstStop(speculated, stops[..i])
      {
        assert stops[..i + 1][..i] == stops[..i];
        var stopPos := Find(speculated, stops[i]);
        if stopPos.Some? && (pos.None? || stopPos.value < pos.value) {
          pos := stopPos;
        }
      }
      assert stops[..|stops|] == stops;
    }

    /** No request is made as long as what is speculated will do: without stop strings, when it is long
        enough; with a list of them, when it is not empty. Else the reply to one request is cut, at the raised
        limit. */
    method GenerateAhead(params: Params, ahead: nat) returns (completion: string)
      modifies this`speculated
      ensures params.stop.None? && params.maxNewTokens <= |old(speculated)| ==>
                completion + speculated == old(speculated)
      ensures params.stop.Some? && old(speculated) != "" ==> completion + speculated == old(speculated)
      ensures (if params.stop.None? then |old(speculated)| < params.maxNewTokens else old(speculated) == "") ==>
                completion + speculated ==
                backend.generate(text, Params(Max(params.maxNewTokens, ahead), None, params.others))
      ensures params.stop.None? ==> |completion| == Min(params.maxNewTokens, |completion + speculated|)
      ensures params.stop.Some? && (exists q: nat :: StopAt(completion + speculated, params.stop.value, q)) ==>
                && StopAt(completion + speculated, params.stop.value, |completion|)
                && forall q: nat :: StopAt(completion + speculated, params.stop.value, q) ==> |completion| <= q
      ensures params.stop.Some? && !(exists q: nat :: StopAt(completion + speculated, params.stop.value, q)) ==>
                |completion| == Min(if old(speculated) != "" then params.maxNewTokens
                                    else Max(params.maxNewTokens, ahead), |completion + speculated|)
      ensures completion == SpecGen(old(State()), backend, params, ahead).0
      ensures speculated == SpecGen(old(State()), backend, params, ahead).1
    {
      var limit := params.maxNewTokens;
      if params.stop.None? {
        if |speculated| < params.maxNewTokens {
          limit := Max(params.maxNewTokens, ahead);
          speculated := backend.generate(text, params.(maxNewTokens := limit, stop := None));
        }
        ghost var pool := speculated;
        completion := Take(speculated, params.maxNewTokens);
        speculated := Drop(speculated, params.maxNewTokens);
        assert completion + speculated == pool;
      } else {
        if speculated == "" {
          limit := Max(params.maxNewTokens, ahead);
          speculated := backend.generate(text, params.(maxNewTokens := limit, stop := None));
        }
        var stopPos := FindStop(params.stop.value);
        ghost var pool := speculated;
        CutAtFirstStop(pool, params.stop.value);
        var cut := if stopPos.Some? then stopPos.value else Min(limit, |speculated|);
        completion := Take(speculated, cut);
        speculated := Drop(speculated, cut);
        assert completion + speculated == pool;
      }
    }

    method ExecuteGen(key: Key, params: Params)
      modifies this
      ensures State() == Generate(old(State()), backend, key, params, numApiSpecTokens)
      ensures key in variables && text == old(text) + variables[key]
      ensures variables == old(variables)[key := variables[key]]
      ensures numApiSpecTokens.None? ==>
                variables[key] == backend.generate(old(text), params) && speculated == old(speculated)
      ensures numApiSpecTokens.Some? && params.stop.None? && params.maxNewTokens <= |old(speculated)| ==>
                variables[key] + speculated == old(speculated)
      ensures numApiSpecTokens.Some? && params.stop.Some? && old(speculated) != "" ==>
                variables[key] + speculated == old(speculated)
      ensures messages == old(messages) && curRole == old(curRole) && roleBegin == old(roleBegin)
      ensures forkStart == old(forkStart)
    {
      var completion;
      if numApiSpecTokens.None? {
        completion := backend.generate(text, params);
      } else {
        completion := GenerateAhead(params, numApiSpecTokens.value);
      }
      text := text + completion;
      variables := variables[key := completion];
    }

    method ExecuteSelect(key: Key, choices: seq<string>)
      modifies this
      ensures State() == Decide(old(State()), key, backend.select(old(text), choices))
      ensures text == old(text) + backend.select(old(text), choices)
      ensures key.Some? ==> variables == old(variables)[key := backend.select(old(text), choices)]
      ensures key.None? ==> variables == old(variables)
      ensures messages == old(messages) && curRole == old(curRole) && roleBegin == old(roleBegin)
      ensures forkStart == old(forkStart) && speculated == old(speculated)
    {
      var decision := backend.select(text, choices);
      if key.Some? {
        variables := variables[key := decision];
      }
      text := text + decision;
    }

    method ExecuteRoleBegin(role: string) returns (ok: bool)
      modifies this
      decreases role != "system"
      ensures ok == BeginRole(old(State()), template, role).Ok?
      ensures State() == if ok then BeginRole(old(State()), template, role).value else old(State())
      ensures ok <==> old(curRole).None?
      ensures ok ==> curRole == Some(role) && roleBegin == Some(|text|) && variables == old(variables)
      ensures ok && !template.InsertsSystem(old(messages), role) ==>
                text == old(text) + template.PrefixAndSuffix(role, messages).0 && messages == old(messages)
      ensures ok && template.InsertsSystem(old(messages), role) ==>
                var prompt := template.defaultSystemPrompt.value;
                && messages == old(messages) + [Message("system", Some(Lstrip(prompt)))]
                && text == old(text) + template.PrefixAndSuffix("system", old(messages)).0 + prompt +
                           template.PrefixAndSuffix("system", old(messages)).1 +
                           template.PrefixAndSuffix(role, messages).0
    {
      RoleBegins(State(), template, role);
      if curRole.Some? {
        return false;
      }
      if messages == [] && role != "system" {
        var defaultSystem := template.defaultSystemPrompt;
        if defaultSystem.Some? && defaultSystem.value != "" {
          var inserted := ExecuteRoleBegin("system");
          ExecuteFill(defaultSystem.value);
          ExecuteRoleEnd("system");
        }
      }
      curRole := Some(role);
      var (prefix, _) := template.PrefixAndSuffix(role, messages);
      ExecuteFill(prefix);
      roleBegin := Some(|text|);
      ok := true;
    }

    method ExecuteRoleEnd(role: string)
      modifies this
      ensures State() == CloseRole(old(State()), template, role)
      ensures curRole == None && text == old(text) + template.PrefixAndSuffix(role, old(messages)).1
      ensures messages == old(messages) + [Message(role, Some(Lstrip(RoleBody(old(State())))))]
      ensures variables == old(variables) && roleBegin == old(roleBegin) && forkStart == old(forkStart)
    {
      curRole := None;
      var newText := Lstrip(Drop(text, if roleBegin.Some? then roleBegin.value else 0));
      var (_, suffix) := template.PrefixAndSuffix(role, messages);
      ExecuteFill(suffix);
      messages := messages + [Message(role, Some(newText))];
    }

    /** The children get copies; they do not speculate. */
    method Fork(size: nat) returns (children: seq<StreamExecutor>)
      ensures |children| == size
      ensures forall i :: 0 <= i < size ==> fresh(children[i]) && children[i].State() == Forked(State())
      ensures forall i :: 0 <= i < size ==>
                && children[i].backend == backend && children[i].template == template
                && children[i].numApiSpecTokens == None && children[i].speculated == ""
                && children[i].text == text && children[i].forkStart == Some(|text|)
                && children[i].variables == variables && children[i].messages == messages
                && children[i].curRole == curRole && children[i].roleBegin == roleBegin
      ensures forall i, j :: 0 <= i < j < size ==> children[i] != children[j]
    {
      children := [];
      for i := 0 to size
        invariant |children| == i
        invariant forall j :: 0 <= j < i ==> fresh(children[j]) && children[j].State() == Forked(State())
        invariant forall j :: 0 <= j < i ==>
                    && children[j].backend == backend && children[j].template == template
                    && children[j].numApiSpecTokens == None
        invariant forall j, k :: 0 <= j < k < i ==> children[j] != children[k]
      {
        var child := new StreamExecutor(backend, template, None);
        child.variables := variables;
        child.text := text;
        child.messages := messages;
        child.curRole := curRole;
        child.roleBegin := roleBegin;
        child.forkStart := Some(|text|);
        children := children + [child];
      }
    }

    method ConcatenateAndAppendText(children: seq<StreamExecutor>)
      modifies this
      ensures State() == JoinText(old(State()), old(States(children)))
    {
      ghost var states := States(children);
      var newText := "";
      for i := 0 to |children|
        invariant unchanged(this)
        invariant newText == Additions(states[..i])
      {
        var exe := children[i];
        assert exe.State() == states[i];
        AdditionsGrow(states, i);
        newText := newText + Drop(exe.text, if exe.forkStart.Some? then exe.forkStart.value else 0);
      }
      assert states[..|children|] == states;
      ExecuteFill(newText);
    }

    /** A child is appended only if it was forked at the given length. */
    method AppendAddition(exe: StreamExecutor, selfLen: nat) returns (ok: bool)
      requires exe != this
      modifies this`text
      ensures ok == (exe.forkStart == Some(selfLen))
      ensures text == if ok then old(text) + Addition(exe.State()) else old(text)
    {
      ok := exe.forkStart == Some(selfLen);
      if ok {
        text := text + Drop(exe.text, exe.forkStart.value);
      }
    }

    /** The children are appended up to the first that was not forked at this length. */
    method AppendAligned(children: seq<StreamExecutor>, ghost states: seq<Exec>, ghost texts: seq<string>)
      returns (ok: bool, ghost n: nat)
      requires |states| == |children| && AreJoined(texts, text, states)
      requires forall k :: 0 <= k < |children| ==> children[k] != this && children[k].State() == states[k]
      modifies this`text
      ensures n <= |states| && ok == (n == |states|) && text == texts[n]
      ensures n == Aligned(states, |old(text)|)
    {
      var selfLen := |text|;
      n := 0;
      ghost var aligned := Aligned(states, selfLen);
      for i := 0 to |children|
        invariant n == i <= aligned && text == texts[i]
      {
        var exe := children[i];
        assert exe.State() == states[i];
        ok := AppendAddition(exe, selfLen);
        if !ok {
          return;
        }
        n := i + 1;
      }
      ok := true;
    }

    method ConcatenateAndAppendKvCache(children: seq<StreamExecutor>) returns (ok: bool)
      requires this !in children
      modifies this`text
      ensures (ok, text) == JoinedKv(old(text), old(States(children)))
    {
      ghost var states, n := States(children), 0;
      TextsAreJoined(text, states);
      JoinedIsKv(text, states);
      ok, n := AppendAligned(children, states, JoinedTexts(text, states));
    }
  }
}
