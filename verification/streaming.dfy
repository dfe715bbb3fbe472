/**
 The imperative side of `get_streaming_response`: the `for` loop that consumes
 the response stream, and the whole call with the remote endpoint supplied as
 a parameter.
 */
module StreamingFunction {
  import opened Chat
  import opened Accumulation

  /**
   The accumulation loop as written: start from the empty string and, for each
   chunk in order, append the first choice's content when the chunk has
   choices and the content is present and non-empty. After k iterations the
   accumulator holds `Accumulate(stream[..k])`, which PrefixMonotone shows is
   a prefix of every later value; an empty stream leaves it "".
   */
  method ConsumeStream(stream: seq<Chunk>) returns (response: string)
    ensures response == Accumulate(stream)
  {
    response := "";
    for k := 0 to |stream|
      invariant response == Accumulate(stream[..k])
    {
      var chunk := stream[k];
      assert stream[..k + 1][..k] == stream[..k];
      if |chunk.choices| > 0 {
        var content := chunk.choices[0].delta.content;
        if content.Some? && content.value != "" {
          response := response + content.value;
        }
      }
    }
    assert stream[..|stream|] == stream;
  }

  /**
   The whole call: build the two-message request, obtain the response stream
   from `transport` (the remote endpoint, given the model, by default
   DefaultModel, and the messages),
   and accumulate it. The result is the in-order concatenation of the
   contributing fragments of that stream.
   */
  method GetStreamingResponse(
    prompt: string,
    systemPrompt: string,
    model: string := DefaultModel,
    transport: (string, seq<Message>) -> seq<Chunk>
  ) returns (response: string)
    ensures response == Accumulate(transport(model, BuildMessages(systemPrompt, prompt)))
    ensures response == Concat(Fragments(transport(model, BuildMessages(systemPrompt, prompt))))
  {
    var messages := BuildMessages(systemPrompt, prompt);
    var responseStream := transport(model, messages);
    response := ConsumeStream(responseStream);
    AccumulateIsConcatOfFragments(responseStream);
  }
}
