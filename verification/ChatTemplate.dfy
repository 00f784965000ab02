/** Chat templates: the text around the messages of each role. */
module ChatTemplates {
  import opened Prelude

  datatype Style = Plain | Llama2

  /** A message whose content is absent is only ever built by an API client. */
  datatype Message = Message(role: string, content: Option<string>)

  datatype ChatTemplate = ChatTemplate(
    defaultSystemPrompt: Option<string>,
    rolePrefixAndSuffix: map<string, (string, string)>,
    style: Style)
  {
    function Around(role: string): (string, string) {
      if role in rolePrefixAndSuffix then rolePrefixAndSuffix[role] else ("", "")
    }

    function PrefixAndSuffix(role: string, history: seq<Message>): (string, string) {
      if style.Llama2? && role == "system" && history == [] then
        (Around("user").0 + Around("system").0, Around("system").1)
      else if style.Llama2? && role == "user" && |history| == 1 && history[0].content.Some? then
        ("", Around(role).1)
      else
        Around(role)
    }

    /** A first message that is not from the system gets the default one before it, if that is
        present and not empty. */
    predicate InsertsSystem(messages: seq<Message>, role: string) {
      messages == [] && role != "system" && defaultSystemPrompt.Some? && defaultSystemPrompt.value != ""
    }

    /** What one message of a conversation renders to, given the messages before it. */
    function Rendered(message: Message, history: seq<Message>): string {
      var content := if message.role == "system" && message.content.None? then defaultSystemPrompt else message.content;
      if message.role == "system" && content.None? then
        ""
      else
        var (prefix, suffix) := PrefixAndSuffix(message.role, history);
        prefix + (if content.Some? then content.value else "None") + suffix
    }

    /** The rendering of a whole conversation, message by message. */
    function Prompt(messages: seq<Message>): string {
      if messages == [] then ""
      else
        var n := |messages| - 1;
        Prompt(messages[..n]) + Rendered(messages[n], messages[..n])
    }

    method GetPrompt(messages: seq<Message>) returns (prompt: string)
      ensures prompt == Prompt(messages)
    {
      prompt := "";
      for i := 0 to |messages|
        invariant prompt == Prompt(messages[..i])
      {
        var role, content := messages[i].role, messages[i].content;
        assert messages[..i + 1][..i] == messages[..i];
        if role == "system" && content.None? {
          content := defaultSystemPrompt;
          if content.None? {
            continue;
          }
        }
        var (prefix, suffix) := PrefixAndSuffix(role, messages[..i]);
        prompt := prompt + (prefix + (if content.Some? then content.value else "None") + suffix);
      }
      assert messages[..|messages|] == messages;
    }
  }
}
