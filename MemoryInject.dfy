/**
 * Injection of the persistent memory context into the messages sent to a
 * model: the combined memory text is put in front of the first user message
 * only, so it reaches the model once per request.
 */
module MemoryInject {
  import opened Wrappers
  import opened ChatHistory

  /** The three memory files and their combination (`loadMemory`'s result). */
  datatype MemoryContext = MemoryContext(userProfile: string, projectContext: string,
                                         customInstructions: string, combined: string)

  /** What separates the memory context from the user's own text. */
  const Separator := "\n\n---\n\nUser Message:\n"

  /** The first user message's new content. */
  function WithMemory(memory: MemoryContext, content: string): string
  {
    memory.combined + Separator + content
  }

  /** `injectMemoryContext(messages, memory)` */
  function InjectMemoryContext(messages: seq<Message>, memory: MemoryContext): (r: seq<Message>)
    ensures |r| == |messages|
    ensures memory.combined == "" || FirstUserIndex(messages).None? ==> r == messages
    ensures memory.combined != "" && FirstUserIndex(messages).Some? ==>
      var k := FirstUserIndex(messages).value;
      && r[k] == Message("user", WithMemory(memory, messages[k].content))
      && forall j :: 0 <= j < |r| && j != k ==> r[j] == messages[j]
  {
    if memory.combined == "" || |messages| == 0 then messages
    else match FirstUserIndex(messages)
      case Some(k) =>
        messages[k := messages[k].(content := WithMemory(memory, messages[k].content))]
      case None => messages
  }

  /**
   * Only content changes: every message keeps its role, so the first user
   * message is where it was, and its original text is what follows the
   * memory context and the separator.
   */
  lemma {:induction false} InjectionRecoverable(messages: seq<Message>, memory: MemoryContext)
    requires memory.combined != "" && FirstUserIndex(messages).Some?
    ensures var r := InjectMemoryContext(messages, memory);
      var k := FirstUserIndex(messages).value;
      var n := |memory.combined| + |Separator|;
      && FirstUserIndex(r) == Some(k)
      && |r[k].content| >= n
      && r[k].content[..|memory.combined|] == memory.combined
      && r[k].content[n..] == messages[k].content
  {
    var r := InjectMemoryContext(messages, memory);
    var k := FirstUserIndex(messages).value;
    SameRolesSameFirstUser(messages, r);
    var c := WithMemory(memory, messages[k].content);
    assert c[..|memory.combined|] == memory.combined;
    assert c[|memory.combined| + |Separator|..] == messages[k].content;
  }

  /** Two message lists with the same roles have their first user message in the same place. */
  lemma {:induction false} SameRolesSameFirstUser(a: seq<Message>, b: seq<Message>)
    requires |a| == |b| && forall j :: 0 <= j < |a| ==> a[j].role == b[j].role
    ensures FirstUserIndex(a) == FirstUserIndex(b)
    decreases |a|
  {
    if a != [] && a[0].role != "user" {
      SameRolesSameFirstUser(a[1..], b[1..]);
    }
  }

  /** Injecting twice puts the memory context in front twice: the operation is not idempotent. */
  lemma InjectTwice(messages: seq<Message>, memory: MemoryContext)
    requires memory.combined != "" && FirstUserIndex(messages).Some?
    ensures var k := FirstUserIndex(messages).value;
      InjectMemoryContext(InjectMemoryContext(messages, memory), memory)[k].content
        == WithMemory(memory, WithMemory(memory, messages[k].content))
  {
    InjectionRecoverable(messages, memory);
  }
}
