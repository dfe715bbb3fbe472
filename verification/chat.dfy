/**
 The shapes exchanged with the chat-completion endpoint: the role-tagged
 messages of a request and the chunks of a streamed response.
 */
module Chat {
  import opened Wrappers

  /** The two roles the request uses. */
  datatype Role = System | User {
    /** The role's wire name, as written in the request dictionary. */
    function Name(): string {
      match this
      case System => "system"
      case User => "user"
    }
  }

  /** One entry of the request's message list: `{"role": ..., "content": ...}`. */
  datatype Message = Message(role: Role, content: string)

  /** The incremental part of a streamed choice; `content` may be absent. */
  datatype Delta = Delta(content: Option<string>)

  /** One choice of a streamed chunk. */
  datatype Choice = Choice(delta: Delta)

  /** One element of the response stream; its list of choices may be empty. */
  datatype Chunk = Chunk(choices: seq<Choice>)

  /** The model used when the caller names none. */
  const DefaultModel: string := "gpt-4o-mini"

  /**
   The request's message list: the system instruction first, the user's
   prompt second, and nothing else.
   */
  function BuildMessages(systemPrompt: string, prompt: string): (m: seq<Message>)
    ensures |m| == 2
    ensures m[0].role == System && m[0].content == systemPrompt
    ensures m[1].role == User && m[1].content == prompt
    ensures m[0].role.Name() == "system" && m[1].role.Name() == "user"
  {
    [Message(System, systemPrompt), Message(User, prompt)]
  }

  /**
   Recovers the system instruction and the user prompt from a message list,
   when the list has the shape that BuildMessages produces.
   */
  function Prompts(m: seq<Message>): Option<(string, string)> {
    if |m| == 2 && m[0].role == System && m[1].role == User
    then Some((m[0].content, m[1].content))
    else None
  }

  /**
   BuildMessages loses nothing: Prompts inverts it, and every list Prompts
   accepts is the BuildMessages of what it returns.
   */
  lemma BuildMessagesRoundTrip(systemPrompt: string, prompt: string, m: seq<Message>)
    ensures Prompts(BuildMessages(systemPrompt, prompt)) == Some((systemPrompt, prompt))
    ensures Prompts(m) == Some((systemPrompt, prompt)) <==> m == BuildMessages(systemPrompt, prompt)
  {
  }
}
