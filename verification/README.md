# Streaming response accumulator

A Dafny model of `get_streaming_response` in `streaming-function.py`: the
function builds a two-message chat request (a "system" instruction and the
user's prompt), asks a chat-completion endpoint for a streamed answer, and
folds the stream of chunks into one string. Each chunk carries a possibly
empty list of choices; the loop reads only the first choice's
`delta.content`, skips chunks without choices and contents that are `None` or
empty, and appends everything else in arrival order.

The model has four modules:

- `Wrappers` (`wrappers.dfy`): `Option`, standing for Python's optional values.
- `Chat` (`chat.dfy`): the request `Message`s with their `Role`, the response
  `Chunk` / `Choice` / `Delta` shapes, the default model name, and
  `BuildMessages` with its inverse `Prompts`.
- `Accumulation` (`accumulate.dfy`): the meaning of the loop. `Contribution`
  is the text one chunk adds; `Accumulate` is the recursive fold over a stream.
  `Positions` and `Fragments` give an independent description of the same
  text: the indices of the contributing chunks, in increasing order, and
  their texts. The lemmas relate the two descriptions.
- `StreamingFunction` (`streaming.dfy`): `ConsumeStream`, the `for` loop
  written as in the source and proved equal to `Accumulate` by its loop
  invariant; and `GetStreamingResponse`, the whole call, with the remote
  endpoint passed in as a function from model name and messages to a chunk
  sequence.

The code has no timeout, no cancellation, no progress callback and no error
handling: an exception raised while iterating the stream propagates out of
the function, and the partial text is lost.

## Model

| member | source | states |
|---|---|---|
| `Chat.BuildMessages` | streaming-function.py:33-36 | the request has exactly two messages: role "system" carrying the system prompt first, role "user" carrying the prompt second |
| `Chat.BuildMessagesRoundTrip` | streaming-function.py:33-36 | the message list loses nothing: both prompts can be read back from it, and only the list built from those prompts yields them |
| `Accumulation.ContributionMatchesLoopTests` | streaming-function.py:49-52 | a chunk adds text exactly when its `choices` list is non-empty and its first `delta.content` is neither `None` nor empty, and the text it adds is that content |
| `Accumulation.AccumulateEmptyIff` | streaming-function.py:46-52 | the accumulated response is empty exactly when no chunk of the stream passes both tests of the loop |
| `Accumulation.Positions` | streaming-function.py:48-51 | the chunks that add text are listed exactly once each, in stream order, and exactly those with a first choice whose content is non-empty are listed |
| `Accumulation.AccumulateIsConcatOfFragments` | streaming-function.py:46-52 | the accumulated text is the in-order concatenation of the first-choice contents of the contributing chunks; nothing is reordered, dropped or duplicated |
| `Accumulation.AccumulateAppend` | streaming-function.py:48-52 | consuming stream `a` then stream `b` yields the text of `a` followed by the text of `b` |
| `Accumulation.AccumulateLength` | streaming-function.py:48-52 | the response length is the sum of the lengths of the contributing contents |
| `Accumulation.PrefixMonotone` | streaming-function.py:48-52 | the accumulator only grows by appending: its value after k chunks is a prefix of its value after any m >= k chunks |
| `Accumulation.SilentChunkSkipped` | streaming-function.py:49-52 | a chunk with no choices, or whose first content is `None` or empty, leaves the response unchanged wherever it occurs |
| `Accumulation.SameContributionsSameResponse` | streaming-function.py:49-52 | the response depends on each chunk only through the text that chunk contributes |
| `Accumulation.OnlyFirstChoiceRead` | streaming-function.py:49-50 | choices after the first never affect the response |
| `StreamingFunction.ConsumeStream` | streaming-function.py:46-52 | the loop, which skips chunks without choices and `None` or empty contents, returns exactly the fold `Accumulate` that appends every first-choice content; its invariant is that after k chunks the accumulator equals `Accumulate` of the first k chunks |
| `StreamingFunction.GetStreamingResponse` | streaming-function.py:33-57 | the returned text is the in-order concatenation of the contributing fragments of the stream the endpoint returns for the two-message request |

## Left out

- Client construction when no client is passed (streaming-function.py:29-30): it builds a library client from hidden environment settings. The model takes the endpoint as a parameter instead.
- The remote call (streaming-function.py:39-43): modelled only as the `transport` parameter of `GetStreamingResponse`, which returns a finite chunk sequence. Network faults, the library's own semantics and lazy delivery are not modelled.
- The Markdown display (streaming-function.py:55): notebook rendering, pure output.
- The default model name: `Chat.DefaultModel` is "gpt-4o-mini", the code's default (streaming-function.py:8). The docstring says the default is "gpt-4" (streaming-function.py:17). This is configuration, so the model only records the code's value, as the default of `GetStreamingResponse`'s `model` parameter, which is passed to the endpoint unchanged.
- Errors raised while iterating the stream: `streaming-function.py` does not catch them, so the function returns nothing and the partial text is lost. The model's stream is a finite sequence that never fails.
- Strings are Dafny `string` values. The model does not represent Python's code-point strings or the endpoint's text encoding.
