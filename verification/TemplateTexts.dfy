/** What the templates put around messages, in terms of their tables of affixes alone: as rendered at once, and
    as an executor writes it role by role. */
module TemplateTexts {
  import opened Prelude
  import opened Ir
  import opened ChatTemplates
  import opened Executor
  import opened Speculation
  import opened Rendering

  lemma OneMoreMessage(template: ChatTemplate, history: seq<Message>, message: Message)
    ensures template.Prompt(history + [message]) == template.Prompt(history) + template.Rendered(message, history)
  {
    assert (history + [message])[..|history|] == history;
  }

  // ----- messages without content -----

  /** A system message without content stands for the default prompt, or for nothing if there is none; any
      other message without content says "None". */
  lemma AbsentContent(template: ChatTemplate, history: seq<Message>, role: string)
    ensures role != "system" ==>
              template.Prompt(history + [Message(role, None)]) ==
              template.Prompt(history + [Message(role, Some("None"))])
    ensures template.defaultSystemPrompt.Some? ==>
              template.Prompt(history + [Message("system", None)]) ==
              template.Prompt(history + [Message("system", template.defaultSystemPrompt)])
    ensures template.defaultSystemPrompt.None? ==>
              template.Prompt(history + [Message("system", None)]) == template.Prompt(history)
  {
    OneMoreMessage(template, history, Message(role, None));
    OneMoreMessage(template, history, Message(role, Some("None")));
    OneMoreMessage(template, history, Message("system", None));
    OneMoreMessage(template, history, Message("system", template.defaultSystemPrompt));
  }

  // ----- plain templates -----

  lemma PlainIgnoresHistory(template: ChatTemplate, message: Message, history: seq<Message>, other: seq<Message>)
    requires template.style.Plain?
    ensures template.Rendered(message, history) == template.Rendered(message, other)
  {
  }

  /** The rendering of a plain conversation is that of its beginning and then that of the rest. */
  lemma {:induction false} PlainPromptSplits(template: ChatTemplate, a: seq<Message>, b: seq<Message>)
    requires template.style.Plain?
    ensures template.Prompt(a + b) == template.Prompt(a) + template.Prompt(b)
    decreases |b|
  {
    if b == [] {
      assert a + b == a;
      EmptyPrompt(template);
    } else {
      var init, last := b[..|b| - 1], b[|b| - 1];
      assert (a + init) + [last] == a + b && init + [last] == b;
      PlainPromptSplits(template, a, init);
      SplitOneMore(template, a, init, last);
    }
  }

  lemma EmptyPrompt(template: ChatTemplate)
    ensures template.Prompt([]) == ""
  {
  }

  lemma SplitOneMore(template: ChatTemplate, a: seq<Message>, b: seq<Message>, last: Message)
    requires template.style.Plain? && template.Prompt(a + b) == template.Prompt(a) + template.Prompt(b)
    ensures template.Prompt((a + b) + [last]) == template.Prompt(a) + template.Prompt(b + [last])
  {
    OneMoreMessage(template, a + b, last);
    OneMoreMessage(template, b, last);
    PlainIgnoresHistory(template, last, a + b, b);
    AppendTwice(template.Prompt(a), template.Prompt(b), template.Rendered(last, b));
  }

  /** One message is rendered between the two entries of its role, or as it is if the role has none. */
  lemma PlainMessage(template: ChatTemplate, role: string, content: string)
    requires template.style.Plain?
    ensures role in template.rolePrefixAndSuffix ==>
              template.Prompt([Message(role, Some(content))]) ==
              template.rolePrefixAndSuffix[role].0 + content + template.rolePrefixAndSuffix[role].1
    ensures role !in template.rolePrefixAndSuffix ==> template.Prompt([Message(role, Some(content))]) == content
  {
    OneMoreMessage(template, [], Message(role, Some(content)));
    assert [] + [Message(role, Some(content))] == [Message(role, Some(content))];
    assert template.Prompt([]) == "";
  }

  // ----- Llama 2 templates -----

  predicate HasEntries(template: ChatTemplate) {
    "system" in template.rolePrefixAndSuffix && "user" in template.rolePrefixAndSuffix
  }

  /** A conversation that opens with the system and the user: the system message stands inside the
      user's. */
  lemma LlamaOpens(template: ChatTemplate, system: string, user: string)
    requires template.style.Llama2? && HasEntries(template)
    ensures var (userFirst, userSecond) := template.rolePrefixAndSuffix["user"];
            var (systemFirst, systemSecond) := template.rolePrefixAndSuffix["system"];
            template.Prompt([Message("system", Some(system)), Message("user", Some(user))]) ==
            userFirst + systemFirst + system + systemSecond + user + userSecond
  {
    var first, second := Message("system", Some(system)), Message("user", Some(user));
    OneMoreMessage(template, [], first);
    OneMoreMessage(template, [first], second);
    assert [] + [first] == [first] && [first] + [second] == [first, second];
    EmptyPrompt(template);
    var (userFirst, userSecond) := template.rolePrefixAndSuffix["user"];
    var (systemFirst, systemSecond) := template.rolePrefixAndSuffix["system"];
    FromNothing(userFirst + systemFirst, system, systemSecond);
    OpeningParts(userFirst + systemFirst + system + systemSecond, user, userSecond);
  }

  lemma FromNothing(prefix: string, body: string, suffix: string)
    ensures "" + (prefix + body + suffix) == prefix + body + suffix == "" + prefix + body + suffix
  {
  }

  lemma OpeningParts(opening: string, body: string, suffix: string)
    ensures opening + ("" + body + suffix) == opening + body + suffix
  {
  }

  /** Every other message is rendered as in a plain template: one of another role, the first one of the
      user, and any after the second. */
  lemma LlamaGoesOn(template: ChatTemplate, history: seq<Message>, role: string, content: string)
    requires template.style.Llama2? && role in template.rolePrefixAndSuffix
    requires role == "system" ==> history != []
    requires role == "user" ==> |history| != 1 || history[0].content.None?
    ensures template.Prompt(history + [Message(role, Some(content))]) ==
            template.Prompt(history) +
            (template.rolePrefixAndSuffix[role].0 + content + template.rolePrefixAndSuffix[role].1)
  {
    OneMoreMessage(template, history, Message(role, Some(content)));
  }

  // ----- what an executor writes -----

  /** The executor after a role filled with text. */
  function Said(e: Exec, template: ChatTemplate, role: string, body: string): Exec
    requires e.curRole.None?
  {
    CloseRole(Fill(BeginRole(e, template, role).value, body), template, role)
  }

  lemma SaidIsRun(b: Backend, e: Exec, template: ChatTemplate, role: string, body: string)
    requires e.curRole.None?
    ensures RunBlock(b, template, e, InRole(role, [FillStep(body)])) == Ok(Said(e, template, role, body))
  {
    var begun, steps := BeginRole(e, template, role).value, [FillStep(body)];
    assert steps[1..] == [] && steps[0] == FillStep(body);
    assert RunPlain(b, PlainStep(b, begun, steps[0]), steps[1..]).0 == Fill(begun, body);
  }

  /** Where no default prompt is inserted before it. */
  lemma RoleWrites(e: Exec, template: ChatTemplate, role: string, body: string)
    requires e.curRole.None? && !template.InsertsSystem(e.messages, role)
    ensures var e', (prefix, suffix) := Said(e, template, role, body), template.PrefixAndSuffix(role, e.messages);
            && e'.text == e.text + prefix + body + suffix && e'.curRole.None?
            && e'.messages == e.messages + [Message(role, Some(Lstrip(body)))]
  {
    var begun := OpenRole(e, template, role);
    var filled := Fill(begun, body);
    assert Drop(filled.text, |begun.text|) == body;
    RoleAddsMessage(e, template, role, filled);
  }

  /** A conversation of system and user, as it is written role by role. */
  lemma SystemThenUser(template: ChatTemplate, system: string, user: string)
    requires HasEntries(template)
    ensures var e := Said(FRESH, template, "system", system);
            && e.curRole.None?
            && (template.style.Plain? ==>
                  e.text == template.rolePrefixAndSuffix["system"].0 + system +
                            template.rolePrefixAndSuffix["system"].1
                  && Said(e, template, "user", user).text ==
                     e.text + template.rolePrefixAndSuffix["user"].0 + user + template.rolePrefixAndSuffix["user"].1)
            && (template.style.Llama2? ==>
                  e.text == (template.rolePrefixAndSuffix["user"].0 + template.rolePrefixAndSuffix["system"].0) +
                            system + template.rolePrefixAndSuffix["system"].1
                  && Said(e, template, "user", user).text == e.text + user + template.rolePrefixAndSuffix["user"].1)
            && Said(e, template, "user", user).messages ==
               [Message("system", Some(Lstrip(system)))] + [Message("user", Some(Lstrip(user)))]
  {
    RoleWrites(FRESH, template, "system", system);
    var e := Said(FRESH, template, "system", system);
    assert e.messages == [Message("system", Some(Lstrip(system)))];
    FromNothing(template.PrefixAndSuffix("system", []).0, system, template.PrefixAndSuffix("system", []).1);
    RoleWrites(e, template, "user", user);
    WithoutPrefix(e.text, user, template.rolePrefixAndSuffix["user"].1);
  }

  lemma WithoutPrefix(text: string, body: string, suffix: string)
    ensures text + "" + body + suffix == text + body + suffix
  {
  }

  /** A default prompt that is present and not empty is said first, and recorded, before any role but the
      system's. */
  lemma DefaultPromptIsSaid(template: ChatTemplate, role: string, body: string, prompt: string)
    requires template.defaultSystemPrompt == Some(prompt) && prompt != "" && role != "system"
    ensures Said(FRESH, template, "system", prompt).curRole.None?
    ensures Said(FRESH, template, role, body) ==
            Said(Said(FRESH, template, "system", prompt), template, role, body)
  {
    RoleWrites(FRESH, template, "system", prompt);
  }

  /** Without one, the user speaks first. */
  lemma UserSpeaksFirst(template: ChatTemplate, user: string)
    requires "user" in template.rolePrefixAndSuffix
    requires template.defaultSystemPrompt == None || template.defaultSystemPrompt == Some("")
    ensures var e := Said(FRESH, template, "user", user);
            && e.text == template.rolePrefixAndSuffix["user"].0 + user + template.rolePrefixAndSuffix["user"].1
            && e.messages == [Message("user", Some(Lstrip(user)))]
  {
    RoleWrites(FRESH, template, "user", user);
    FromNothing(template.rolePrefixAndSuffix["user"].0, user, template.rolePrefixAndSuffix["user"].1);
  }

  /** Roles do not nest, and one that was closed can be followed by any other. */
  lemma RolesAlternate(template: ChatTemplate, e: Exec, role: string, other: string)
    requires e.curRole.None?
    ensures BeginRole(e, template, role).Ok?
    ensures var begun := BeginRole(e, template, role).value;
            && begun.curRole == Some(role) && BeginRole(begun, template, other).Err?
            && BeginRole(CloseRole(begun, template, role), template, other).Ok?
  {
    RoleBegins(e, template, role);
  }
}
