# Twilio-AI-Friend: prompt builder and turn relay

Twilio-AI-Friend is a small Go server. It connects a phone call, through a
voice-agent platform's websocket, to a streaming chat-completion backend. This
project models the two deterministic pieces of its logic and proves properties
about them.

- **Prompt builder** (`GenerateAIRequest`): it turns the transcript of an
  inbound request into the message list for the completion backend. It puts
  one fixed `system` directive first, then one message per transcript entry,
  in order. The role `"agent"` becomes `"assistant"`, every other role becomes
  `"user"`, and content is copied unchanged.
- **Turn relay** (`HandleWebsocketMessages`, plus the greeting written on
  connect): it maps one inbound request and the completion stream to the list
  of responses written back.
  - A request of type `update_only` writes nothing.
  - Otherwise, each stream chunk that carries a choice writes one response,
    holding that choice's delta content.
  - The first receive error then writes exactly one terminal marker and ends
    the loop.
  - The marker is `"\n\n###### [END] ######"` when the stream ended normally
    after at least one chunk. Otherwise it is
    `"[ERROR] NO RESPONSE, PLEASE RETRY"`: no chunk arrived, or the error was
    not end-of-stream.
  - Every relayed response echoes the request's `response_id` and has
    `content_complete` and `end_call` false. The greeting has id 0 and
    `content_complete` true.

The completion stream is modelled as a sequence of events: `Chunk(choices)`,
`EndOfStream` or `StreamError`. Each choice there stands for that choice's
delta content. Writes to the connection are modelled as appends to the output
sequence.

Modules:
- `Messages` (`messages.dfy`): the `Transcripts`, `Request` and `Response`
  records, the chat message, and the string constants of `main.go`.
- `PromptBuilder` (`prompt_builder.dfy`): the prompt builder, written as
  functions with lemmas.
- `Relay` (`relay.dfy`): the event datatype and the relay itself. `RelayFrom`
  follows the receive loop one event at a time. `Written` states the output
  by the stream's shape instead. `Responses` is everything written for one request.
  `HandleWebsocketMessages` is the loop, proved equal to `Responses`.

`main.go` keeps no conversation history and never cancels a generation:
- an `update_only` request is ignored, not stored;
- each request is handled synchronously by the read loop;
- `response_required` and `reminder_required` are treated alike.

## Model

| member | source | states |
|---|---|---|
| PromptBuilder.SystemMessage | main.go:290-295 | the first prompt message has the system role and the fixed directive, and no converted transcript entry can equal it |
| PromptBuilder.ChatRole | main.go:300-304 | the backend role is "assistant" exactly when the transcript role is "agent", and "user" otherwise |
| PromptBuilder.ToChatMessage | main.go:298-306 | one transcript entry becomes a message with the same content, whose role is "assistant" exactly for an agent entry and "user" otherwise |
| PromptBuilder.ConvertTurns | main.go:297-309 | one message per transcript entry in the same order; each carries its entry's content; its role is "assistant" exactly when the entry's role is "agent", and otherwise "user" |
| PromptBuilder.GenerateAIRequest | main.go:287-312 | the prompt has one more message than the transcript; message 0 is the system directive; message k+1 carries entry k's content; its role is "assistant" iff entry k is the agent's; every message after 0 is "assistant" or "user" |
| PromptBuilder.RecoverTranscriptOfPrompt | main.go:300-306 | the transcript can be read back from the prompt when every role is "agent" or "user", so the prompt drops or reorders nothing |
| PromptBuilder.SamePromptIff | main.go:300-306 | two requests give the same prompt if and only if their transcripts agree in length, in every content, and in which entries are the agent's |
| PromptBuilder.GenerateAIRequestAppend | main.go:297-309 | one more transcript entry appends exactly its converted message and leaves the earlier messages unchanged |
| PromptBuilder.RecoverTranscriptAt | main.go:300-306 | entry k read back from a prompt comes from prompt message k+1 |
| Relay.FirstTerminal | main.go:230-232 | the position of the first receive error in the stream; every event before it is a chunk |
| Relay.TerminalContent | main.go:233-243 | the end marker exactly for a normal end after at least one chunk, and the retry marker in every other case |
| Relay.RelayFrom | main.go:229-284 | the receive loop always writes at least one response; every response echoes the request id with content_complete and end_call false; the last one is the end marker or the retry marker |
| Relay.Responses | main.go:206-210 | a request writes nothing if and only if its interaction type is update_only; every response written echoes its id with both flags false |
| Relay.HandleWebsocketMessages | main.go:203-285 | the receive loop writes exactly Responses(msg, events); it writes nothing if and only if the request is update_only; every response echoes the request id with both flags false |
| Relay.RelayFromSplit | main.go:229-284 | for a stream made of chunks, then an error, then anything: the loop writes the chunks' deltas in order, then the marker for that error given the chunks received; nothing after the error is read |
| Relay.RelayFromShape | main.go:229-284 | the loop's output equals one fragment per chunk with a choice before the first error, in order, followed by the single terminal marker chosen from that error and the count of all chunks received |
| Relay.RelayShape | main.go:263-283 | for a request that wants an answer: one response per delta plus one; response k carries delta k in stream order; the last response is the terminal marker |
| Relay.DeltasCount | main.go:263-264 | the deltas relayed are exactly as many as the chunks that carry a choice |
| Relay.RelayCount | main.go:263-283 | the number of responses is the number of chunks with a choice before the first error, plus one |
| Relay.TerminalMarker | main.go:233-243 | a normal end after zero chunks gives the retry marker, a normal end after at least one chunk gives the end marker, and any other error gives the retry marker whatever came before |
| Relay.StopsAtFirstTerminal | main.go:231-262 | nothing after the first receive error affects the output: the loop stops there |
| Relay.EmptyChunkCounted | main.go:263-283 | a chunk without a choice writes nothing, but it is counted: a normal end after it gives the end marker |
| Relay.GreetingDistinctFromRelay | main.go:163-168 | the greeting has id 0, is complete and does not end the call; it never equals a relayed response |
| Relay.Greeting | main.go:163-168 | the greeting has id 0, the opening line as content, is complete and does not end the call, so it differs from every relayed fragment |
| Relay.ScenarioTwoChunks | main.go:230-284 | chunks "Hel" and "lo" then a normal end give those two fragments and then the end marker |
| Relay.ScenarioNoChunk | main.go:234-237 | a normal end before any chunk gives the retry marker alone |

## Left out

- Process setup in `main`: the router, the routes and the API keys in the environment (main.go:54-62). This is plumbing.
- `Twiliowebhookhandler` and its voice-routing markup (main.go:67-97). It wraps a foreign library whose output is not visible here.
- `RegisterRetellCall` (main.go:99-144). It is one outbound HTTP request with JSON encoding.
- The websocket upgrade, the read loop, `WriteMessage`, `Close` and logging (main.go:146-201, main.go:250-259, main.go:272-281). These are transport. The greeting is modelled only as a value. Writes are appends to the output sequence. Handling of failed writes is not modelled.
- JSON encoding and decoding of requests and responses. `main.go` ignores their errors, so the records are plain datatypes.
- `Relay.HandleWebsocketMessages`: the OpenAI client, `CreateChatCompletionStream` and the chosen model (main.go:204, main.go:214-221) are replaced by an abstract event sequence. The failure branch at main.go:222-226 is not modelled, because it closes the connection and then goes on to use a failed stream.
- `Temperature` and `MaxTokens` (main.go:218-219). These are configuration passed to the foreign backend.
- `Relay.HandleWebsocketMessages`: requires that the stream eventually yields an error event. The Go loop exits only on a receive error. For a stream that never ends, the Go loop never exits: it waits in `Recv` or keeps relaying chunks. The model does not cover that case.
- Only each choice's delta content is modelled. The other fields of a stream chunk are never read by the relay.
- Go's `int` is modelled as an unbounded integer, both for the chunk counter and for `response_id`. The counter cannot realistically overflow.
