/** Executing role blocks one after the other, compared with rendering the recorded
    conversation at once. */
module Rendering {
  import opened Prelude
  import opened Ir
  import opened ChatTemplates
  import opened Executor
  import opened Speculation

  /** A role with what is executed inside it, or something executed outside any role. */
  datatype Block = InRole(role: string, body: seq<Step>) | Outside(steps: seq<Step>)

  function RunSteps(b: Backend, e: Exec, steps: seq<Step>): Exec {
    RunPlain(b, e, steps).0
  }

  function RunBlock(b: Backend, template: ChatTemplate, e: Exec, block: Block): Result<Exec> {
    match block
    case Outside(steps) => Ok(RunSteps(b, e, steps))
    case InRole(role, body) =>
      match BeginRole(e, template, role)
      case Err(error) => Err(error)
      case Ok(begun) => Ok(CloseRole(RunSteps(b, begun, body), template, role))
  }

  function RunBlocks(b: Backend, template: ChatTemplate, e: Exec, blocks: seq<Block>): Result<Exec>
    decreases |blocks|
  {
    if blocks == [] then Ok(e)
    else
      match RunBlock(b, template, e, blocks[0])
      case Err(error) => Err(error)
      case Ok(e') => RunBlocks(b, template, e', blocks[1..])
  }

  /** The steps only add to the text and touch nothing about roles. */
  lemma {:induction false} StepsAdd(b: Backend, e: Exec, steps: seq<Step>)
    ensures var e' := RunSteps(b, e, steps);
            && IsPrefix(e.text, e'.text)
            && e'.messages == e.messages && e'.curRole == e.curRole && e'.roleBegin == e.roleBegin
    decreases |steps|
  {
    if steps != [] {
      var e1 := PlainStep(b, e, steps[0]);
      StepsAdd(b, e1, steps[1..]);
      assert e1.text[..|e.text|] == e.text;
      var e2 := RunSteps(b, e, steps);
      assert e2.text[..|e.text|] == e2.text[..|e1.text|][..|e.text|];
    }
  }

  /** What executing the steps adds to the text. */
  function Added(b: Backend, e: Exec, steps: seq<Step>): string {
    Drop(RunSteps(b, e, steps).text, |e.text|)
  }

  /** It is the fills and the model's answers, in order. */
  lemma StepsWrite(b: Backend, e: Exec, steps: seq<Step>)
    ensures Added(b, e, steps) == Written(steps, RunPlain(b, e, steps).1)
  {
    PlainRunWrites(b, e, steps);
  }

  /** The text a block drops from the record: the white space its message is stripped of, or all of it. */
  function DroppedByRole(body: string): nat {
    |body| - |Lstrip(body)|
  }

  function DroppedByBlock(b: Backend, template: ChatTemplate, e: Exec, block: Block): nat
    requires e.curRole.None?
  {
    match block
    case Outside(steps) => |Added(b, e, steps)|
    case InRole(role, body) =>
      var begun := BeginRole(e, template, role).value;
      (if template.InsertsSystem(e.messages, role) then DroppedByRole(template.defaultSystemPrompt.value) else 0) +
      DroppedByRole(Added(b, begun, body))
  }

  /** Nothing is executed outside of roles, and what is in them does not start with white space:
      neither the bodies nor a default system prompt that is inserted. */
  ghost predicate Clean(b: Backend, template: ChatTemplate, e: Exec, blocks: seq<Block>)
    requires e.curRole.None?
    decreases |blocks|
  {
    if blocks == [] then true
    else
      BlockEndsOutside(b, template, e, blocks[0]);
      CleanBlock(b, template, e, blocks[0]) &&
      Clean(b, template, RunBlock(b, template, e, blocks[0]).value, blocks[1..])
  }

  predicate StartsClean(s: string) {
    s == "" || !IsSpace(s[0])
  }

  predicate CleanBlock(b: Backend, template: ChatTemplate, e: Exec, block: Block)
    requires e.curRole.None?
  {
    match block
    case Outside(steps) => Added(b, e, steps) == ""
    case InRole(role, body) =>
      (template.InsertsSystem(e.messages, role) ==> StartsClean(template.defaultSystemPrompt.value)) &&
      StartsClean(Added(b, BeginRole(e, template, role).value, body))
  }

  lemma BlockEndsOutside(b: Backend, template: ChatTemplate, e: Exec, block: Block)
    requires e.curRole.None?
    ensures RunBlock(b, template, e, block).Ok? && RunBlock(b, template, e, block).value.curRole.None?
  {
    if block.Outside? {
      StepsAdd(b, e, block.steps);
    }
  }

  // ----- one role -----

  /** A role that is opened, filled with a body and closed adds its affixes around the body to the
      text, and renders as the same affixes around the stripped body. */
  lemma RoleAddsMessage(e: Exec, template: ChatTemplate, role: string, filled: Exec)
    requires var begun := OpenRole(e, template, role);
             && IsPrefix(begun.text, filled.text)
             && filled.messages == begun.messages && filled.roleBegin == begun.roleBegin
    ensures var closed := CloseRole(filled, template, role);
            var body := Drop(filled.text, |OpenRole(e, template, role).text|);
            var (prefix, suffix) := template.PrefixAndSuffix(role, e.messages);
            && closed.text == e.text + prefix + body + suffix
            && closed.messages == e.messages + [Message(role, Some(Lstrip(body)))]
            && template.Prompt(closed.messages) == template.Prompt(e.messages) + (prefix + Lstrip(body) + suffix)
  {
    var begun, closed := OpenRole(e, template, role), CloseRole(filled, template, role);
    assert filled.text == begun.text + Drop(filled.text, |begun.text|);
    assert closed.messages[..|e.messages|] == e.messages;
  }

  lemma RoleDrops(e: Exec, template: ChatTemplate, role: string, filled: Exec)
    requires var begun := OpenRole(e, template, role);
             && IsPrefix(begun.text, filled.text)
             && filled.messages == begun.messages && filled.roleBegin == begun.roleBegin
    ensures var closed := CloseRole(filled, template, role);
            var body := Drop(filled.text, |OpenRole(e, template, role).text|);
            && |closed.text| - |template.Prompt(closed.messages)| ==
               |e.text| - |template.Prompt(e.messages)| + DroppedByRole(body)
            && (e.text == template.Prompt(e.messages) && StartsClean(body) ==>
                  closed.text == template.Prompt(closed.messages))
  {
    RoleAddsMessage(e, template, role, filled);
    var body := Drop(filled.text, |OpenRole(e, template, role).text|);
    var (prefix, suffix) := template.PrefixAndSuffix(role, e.messages);
    AroundBody(e.text, template.Prompt(e.messages), prefix, body, Lstrip(body), suffix);
  }

  lemma AroundBody(text: string, prompt: string, prefix: string, body: string, content: string, suffix: string)
    ensures |text + prefix + body + suffix| - |prompt + (prefix + content + suffix)| ==
            |text| - |prompt| + |body| - |content|
    ensures text == prompt && body == content ==> text + prefix + body + suffix == prompt + (prefix + content + suffix)
  {
  }

  // ----- one block -----

  /** How much longer the text is than the rendering of the recorded messages. */
  function Excess(template: ChatTemplate, e: Exec): int {
    |e.text| - |template.Prompt(e.messages)|
  }

  lemma SystemBlockDrops(e: Exec, template: ChatTemplate)
    requires template.defaultSystemPrompt.Some?
    ensures var prompt := template.defaultSystemPrompt.value; var e' := SystemBlock(e, template);
            && Excess(template, e') == Excess(template, e) + DroppedByRole(prompt)
            && (e.text == template.Prompt(e.messages) && StartsClean(prompt) ==>
                  e'.text == template.Prompt(e'.messages))
  {
    var begun := OpenRole(e, template, "system");
    var filled := Fill(begun, template.defaultSystemPrompt.value);
    assert Drop(filled.text, |begun.text|) == template.defaultSystemPrompt.value;
    RoleDrops(e, template, "system", filled);
  }

  lemma BodyDrops(b: Backend, e: Exec, template: ChatTemplate, role: string, body: seq<Step>)
    ensures var begun := OpenRole(e, template, role);
            var e' := CloseRole(RunSteps(b, begun, body), template, role);
            && Excess(template, e') == Excess(template, e) + DroppedByRole(Added(b, begun, body))
            && (e.text == template.Prompt(e.messages) && StartsClean(Added(b, begun, body)) ==>
                  e'.text == template.Prompt(e'.messages))
  {
    var begun := OpenRole(e, template, role);
    StepsAdd(b, begun, body);
    RoleDrops(e, template, role, RunSteps(b, begun, body));
  }

  lemma OutsideDrops(b: Backend, e: Exec, template: ChatTemplate, steps: seq<Step>)
    ensures var e' := RunSteps(b, e, steps);
            && Excess(template, e') == Excess(template, e) + |Added(b, e, steps)|
            && (Added(b, e, steps) == "" ==> e'.text == e.text)
            && e'.messages == e.messages
  {
    StepsAdd(b, e, steps);
    assert RunSteps(b, e, steps).text == e.text + Added(b, e, steps);
  }

  lemma CleanIsNotDropped(s: string)
    ensures StartsClean(s) <==> DroppedByRole(s) == 0
  {
  }

  lemma BlockDrops(b: Backend, template: ChatTemplate, e: Exec, block: Block)
    requires e.curRole.None?
    ensures RunBlock(b, template, e, block).Ok?
    ensures var e' := RunBlock(b, template, e, block).value;
            && Excess(template, e') == Excess(template, e) + DroppedByBlock(b, template, e, block)
            && (e.text == template.Prompt(e.messages) && CleanBlock(b, template, e, block) ==>
                  e'.text == template.Prompt(e'.messages))
    ensures CleanBlock(b, template, e, block) <==> DroppedByBlock(b, template, e, block) == 0
  {
    match block
    case Outside(steps) => OutsideDrops(b, e, template, steps);
    case InRole(role, body) =>
      var start := e;
      if template.InsertsSystem(e.messages, role) {
        start := SystemBlock(e, template);
        SystemBlockDrops(e, template);
        CleanIsNotDropped(template.defaultSystemPrompt.value);
      }
      BodyDrops(b, start, template, role, body);
      CleanIsNotDropped(Added(b, OpenRole(start, template, role), body));
  }

  // ----- whole conversations -----

  /** The executor's text is never shorter than the rendering of its messages. */
  lemma {:induction false} ConversationDrops(b: Backend, template: ChatTemplate, e: Exec, blocks: seq<Block>)
    requires e.curRole.None? && Excess(template, e) >= 0
    ensures RunBlocks(b, template, e, blocks).Ok?
    ensures var e' := RunBlocks(b, template, e, blocks).value;
            Excess(template, e') >= Excess(template, e)
    ensures var e' := RunBlocks(b, template, e, blocks).value;
            e'.text == template.Prompt(e'.messages) && e.text == template.Prompt(e.messages) ==>
              Clean(b, template, e, blocks)
    decreases |blocks|
  {
    if blocks != [] {
      BlockEndsOutside(b, template, e, blocks[0]);
      BlockDrops(b, template, e, blocks[0]);
      ConversationDrops(b, template, RunBlock(b, template, e, blocks[0]).value, blocks[1..]);
    }
  }

  lemma {:induction false} CleanRenders(b: Backend, template: ChatTemplate, e: Exec, blocks: seq<Block>)
    requires e.curRole.None? && e.text == template.Prompt(e.messages) && Clean(b, template, e, blocks)
    ensures RunBlocks(b, template, e, blocks).Ok?
    ensures var e' := RunBlocks(b, template, e, blocks).value; e'.text == template.Prompt(e'.messages)
    decreases |blocks|
  {
    if blocks != [] {
      BlockEndsOutside(b, template, e, blocks[0]);
      BlockDrops(b, template, e, blocks[0]);
      CleanRenders(b, template, RunBlock(b, template, e, blocks[0]).value, blocks[1..]);
    }
  }

  /** Incremental execution gives the text of batch rendering exactly when nothing is said outside of
      roles and no message starts with white space, for both styles of templates and with the default
      system message that is inserted. */
  lemma IncrementalIsBatchIffClean(b: Backend, template: ChatTemplate, blocks: seq<Block>)
    ensures RunBlocks(b, template, FRESH, blocks).Ok?
    ensures var e := RunBlocks(b, template, FRESH, blocks).value;
            e.text == template.Prompt(e.messages) <==> Clean(b, template, FRESH, blocks)
  {
    ConversationDrops(b, template, FRESH, blocks);
    if Clean(b, template, FRESH, blocks) {
      CleanRenders(b, template, FRESH, blocks);
    }
  }
}
