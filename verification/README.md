# scratch-link session engine, modelled in Dafny

This project models the JSON-RPC 2.0 session engine of scratch-link, the
`Session` class in `macOS/Sources/scratch-link/Session.swift`. One
`Session` serves one WebSocket connection, and it does the following:

- reassembles inbound messages from socket chunks, with a 1 MiB limit;
- decodes and classifies each message as a request or a response;
- dispatches requests to the application's `didReceiveCall`;
- resolves the pending completion a response answers;
- answers every failure with an error envelope;
- issues outbound requests and notifications with fresh integer ids;
- fails every pending completion when the session is closed.

Each operation is a pure function of the session state and its input. It
returns the new state plus the list of actions it performs:

- a binary or text frame written to the socket;
- closing the socket;
- a call handed to `didReceiveCall`;
- a completion invoked with `(result, error)`.

The modules follow the structure of the Swift class:

- `Wrappers`: `Option`, `Outcome` and `Result`.
- `JsonValues`: decoded JSON values, and the Swift dynamic casts `as? String`, `as? [String: Any]` and `as? Int`.
- `RpcErrors`: the error record, the three standard kinds, with codes and messages assumed from section 5.1 of the JSON-RPC 2.0 specification, and the engine's local codes 1 and 2.
- `Trace`: the actions.
- `Envelope`: `makeResponse` and `sendResponse`. It also has an independent reader for a JSON-RPC 2.0 response object, as a peer would parse it (section 5 of the JSON-RPC 2.0 specification).
- `Assembly`: the chunk-reassembly closure of `handleSession`.
- `Sessions`: the session state, `getNextId`, `sendRemoteRequest`, `didReceiveData` with `didReceiveRequest` and `didReceiveResponse`, the read callback, and `sessionWasClosed`.
- `SessionProperties`: properties that relate several steps, or that pin one step down for a class of inputs. These cover:
  - classification order;
  - response correlation and replay;
  - fresh and increasing request ids;
  - a loopback exchange between two sessions;
  - concrete message scenarios.

### Where the code departs from JSON-RPC 2.0 or leaves state behind

The model follows the code in each case:

- **Bytes that are not JSON.** Section 5.1 of the JSON-RPC 2.0 specification assigns Parse error (-32700) to invalid JSON. In the code, `JSONSerialization.jsonObject` is called without `.fragmentsAllowed`, so invalid JSON and a top-level scalar (`5`, `"x"`, `true`, `null`) both make it throw a Foundation error, which is not a `JSONRPCError`. That is answered with the local code 1 "Unhandled error encountered during call" and a null id (`UndecodableIsUnhandled`). Only a top-level JSON array reaches `ParseError` (`NonObjectIsParseError`).
- **Notifications.** Section 4.1 of the JSON-RPC 2.0 specification forbids answering a notification. The code answers a notification whose handler throws, or whose `method` is not a string, with a null id (`NotificationAnswered`).
- **Close.** `sessionWasClosed` calls every pending completion and does not remove the entries (`SessionWasClosed`).
- **Unsent requests.** An outbound request whose encoding fails is dropped, but its completion stays registered (`UnsentRequestStaysPending`).

## Model

All source paths are relative to the repository root.

| member | source | states |
|---|---|---|
| JsonValues.AsInt | macOS/Sources/scratch-link/Session.swift:228 | `as? Int` succeeds exactly on integral JSON numbers within Swift's 64-bit `Int` range, and the value read back is the number's own integer |
| JsonValues.IntRoundTrip | macOS/Sources/scratch-link/Session.swift:126 | an id written into a message as a JSON number is read back by `as? Int` as the same integer whenever it fits in an `Int` |
| RpcErrors.ParseError | macOS/Sources/scratch-link/Session.swift:187 | a parse failure carries code -32700, which lies in the range reserved by section 5.1 of the JSON-RPC 2.0 specification, with its detail string as data |
| RpcErrors.InvalidRequest | macOS/Sources/scratch-link/Session.swift:195 | an invalid message carries code -32600, which lies in the reserved range, with its detail string as data |
| RpcErrors.InternalError | macOS/Sources/scratch-link/Session.swift:81 | the close error carries code -32603, which lies in the reserved range, with its detail string as data |
| RpcErrors.ReportedError | macOS/Sources/scratch-link/Session.swift:205-210 | a thrown `JSONRPCError` is reported unchanged. Any other error becomes code 1, which lies outside the reserved range, with message "Unhandled error encountered during call" and its description as data |
| RpcErrors.EncodeFailed | macOS/Sources/scratch-link/Session.swift:173-174 | the fallback error has code 2, outside the reserved range, message "Could not encode response", and the first failure's description as data |
| Envelope.MakeResponse | macOS/Sources/scratch-link/Session.swift:144-164 | the envelope is an object with `jsonrpc` "2.0" and the captured id. It holds `error` exactly when there is an error and `result` exactly when there is not. The error object holds `data` exactly when the error has data |
| Envelope.EnvelopeRoundTrip | macOS/Sources/scratch-link/Session.swift:144-164 | every envelope parses, under an independent response reader, to a reply with the same id. The outcome is the error if there is one, otherwise the result, with a missing result read as null |
| Envelope.SendResponse | macOS/Sources/scratch-link/Session.swift:166-183 | at most one frame is sent, and any frame sent reads back as a response with the captured id. If the envelope encodes, exactly it is sent. If it does not, a code-2 envelope naming the first failure is sent instead. Nothing is sent exactly when that fallback also fails |
| Assembly.ReadChunk | macOS/Sources/scratch-link/Session.swift:54-72 | a failed read closes the socket and keeps the buffer. A chunk is rejected, with "Message too big" followed by a close and an emptied buffer, exactly when the accumulated size exceeds 1 MiB. A message is delivered exactly on a final chunk within the limit, and it is the whole accumulation. The buffer never exceeds 1 MiB |
| Assembly.MessageDelivered | macOS/Sources/scratch-link/Session.swift:53-72 | a message of at most 1 MiB, split into any number of chunks, is delivered exactly once and whole, with no socket action, and it leaves the buffer empty |
| Assembly.FeedBounded | macOS/Sources/scratch-link/Session.swift:60-67 | across any run of chunks, the buffer never exceeds 1 MiB and no delivered message is larger |
| Sessions.Init | macOS/Sources/scratch-link/Session.swift:27-30 | a new session starts at id 0 with an empty table, which makes it valid (every pending id below the counter) |
| Sessions.GetNextId | macOS/Sources/scratch-link/Session.swift:252-256 | hands out the current counter and advances it by one. In a valid session the id handed out is not pending, and the session stays valid |
| Sessions.Register | macOS/Sources/scratch-link/Session.swift:120-125 | registering a completion installs it under the counter's value, advances the counter and keeps every other entry. In a valid session the id was free, the table grows by one and validity is kept |
| Sessions.RequestMessageShape | macOS/Sources/scratch-link/Session.swift:111-127 | the request object has `jsonrpc` "2.0" and the method name. It has `params` exactly when parameters were given and `id` exactly when a completion was given, and no other member |
| Sessions.SendRemoteRequest | macOS/Sources/scratch-link/Session.swift:109-138 | at most one frame is sent, exactly when the request encodes, and it is a well-formed request. A notification leaves the state unchanged. A request registers its completion under the fresh id `nextId`, whether or not it is sent. Validity is kept |
| Sessions.ResponseId | macOS/Sources/scratch-link/Session.swift:191 | the reply id is the message's `id` member when present, and null otherwise |
| Sessions.ReadRequest | macOS/Sources/scratch-link/Session.swift:213-219 | extraction succeeds exactly when `method` is a string, and otherwise gives InvalidRequest "method value missing or not a string". The parameters are `params` when it is an object, and otherwise empty |
| Sessions.CompletionArguments | macOS/Sources/scratch-link/Session.swift:238-249 | an `error` object gives `(nil, error)`. Otherwise the result is passed, with a missing or null result passed as nil |
| Sessions.ReceiveResponse | macOS/Sources/scratch-link/Session.swift:227-250 | succeeds exactly when the id is a Swift `Int` that is pending. It then removes that entry alone and invokes its completion once. Otherwise it fails with one of the two InvalidRequest details |
| Sessions.Classify | macOS/Sources/scratch-link/Session.swift:193-204 | a wrong version marker is an InvalidRequest that changes nothing. Classification only ever removes table entries, never adds or alters one |
| Sessions.DidReceiveData | macOS/Sources/scratch-link/Session.swift:140-211 | the pipeline never adds or alters a pending entry, never touches the counter and keeps validity. It emits at most two actions, and any frame it sends is last and reads back as a response carrying the message's own id (null when there is none) |
| Sessions.OnChunk | macOS/Sources/scratch-link/Session.swift:52-73 | the read callback, followed by the pipeline on a completed message, keeps the counter and validity, only removes pending entries, and keeps the buffer within 1 MiB |
| Sessions.SessionWasClosed | macOS/Sources/scratch-link/Session.swift:76-85 | for any iteration order of the table, each pending completion is invoked exactly once with InternalError "Session closed", and the table is left as it was |
| SessionProperties.UndecodableIsUnhandled | macOS/Sources/scratch-link/Session.swift:207-210 | bytes that Foundation cannot parse are answered with code 1 and a null id, and the state is unchanged |
| SessionProperties.NonObjectIsParseError | macOS/Sources/scratch-link/Session.swift:186-188 | a top-level JSON array is answered with ParseError "unrecognized message structure" and a null id |
| SessionProperties.VersionChecked | macOS/Sources/scratch-link/Session.swift:191-196 | a missing, non-string or wrong `jsonrpc` is answered with InvalidRequest carrying the message's own id, whatever else the message holds |
| SessionProperties.MethodWins | macOS/Sources/scratch-link/Session.swift:198-199 | a `method` member makes the message a request even if it also has `result` or `error`, and the table is never consulted. A string method is dispatched with the message's id. A reply follows immediately exactly when the handler throws, and a non-string method is answered with InvalidRequest |
| SessionProperties.ThrowingHandlerAnswered | macOS/Sources/scratch-link/Session.swift:222-224 | a handler that throws synchronously is answered with what it threw, or with code 1 when that is not a `JSONRPCError` |
| SessionProperties.NeitherIsInvalid | macOS/Sources/scratch-link/Session.swift:200-204 | a message with none of `method`, `result` or `error` is answered with InvalidRequest "message is neither request nor response" and its own id |
| SessionProperties.ResponseResolves | macOS/Sources/scratch-link/Session.swift:227-250 | a response to a pending id removes exactly that entry, invokes its completion once with the arguments the response carries, and sends nothing |
| SessionProperties.ResponseRejected | macOS/Sources/scratch-link/Session.swift:228-236 | a response whose id is not an `Int`, or is not pending, is answered with the matching InvalidRequest and changes nothing |
| SessionProperties.ResponseReplayRejected | macOS/Sources/scratch-link/Session.swift:232-236 | a response delivered twice resolves once. The second copy is rejected as an unknown id and leaves the table as the first left it |
| SessionProperties.UnknownResponseIdScenario | macOS/Sources/scratch-link/Session.swift:232-236 | `{"jsonrpc":"2.0","id":7,"result":null}` with 7 not pending is answered with InvalidRequest and id 7 |
| SessionProperties.PingPongScenario | macOS/Sources/scratch-link/Session.swift:185-199 | `{"jsonrpc":"2.0","id":1,"method":"ping"}` is dispatched with reply id 1, and completing it with "pong" sends exactly `{"jsonrpc":"2.0","id":1,"result":"pong"}` |
| SessionProperties.NotificationAnswered | macOS/Sources/scratch-link/Session.swift:190-199 | as written, a notification whose handler throws is answered with a null id |
| SessionProperties.IssueAllocates | macOS/Sources/scratch-link/Session.swift:120-125 | the state left by a run of outbound requests depends only on their completions, not on encoding |
| SessionProperties.AllocatedIdsFresh | macOS/Sources/scratch-link/Session.swift:252-256 | successive registrations take the ids `nextId`, `nextId + 1`, ... in order. None of them was pending, each holds its own completion, no earlier entry is lost and validity is kept |
| SessionProperties.IssuedIdsFresh | macOS/Sources/scratch-link/Session.swift:120-126 | successive outbound requests get strictly increasing fresh ids, each registered with its own completion, with no earlier entry lost |
| SessionProperties.SendsOneRequest | macOS/Sources/scratch-link/Session.swift:120-133 | when encoding succeeds, a request registers its completion and sends exactly its request object |
| SessionProperties.IssuedMessagesNumbered | macOS/Sources/scratch-link/Session.swift:109-133 | when encoding succeeds, a run of requests sends one request object per call, in call order, numbered upwards from `nextId` |
| SessionProperties.NumberedShape | macOS/Sources/scratch-link/Session.swift:111-127 | the k-th of those messages is a well-formed request for the k-th call, with id `nextId + k` |
| SessionProperties.UnsentRequestStaysPending | macOS/Sources/scratch-link/Session.swift:120-137 | a request that cannot be encoded is not sent, but its completion stays registered under the id it was given |
| SessionProperties.RequestDispatched | macOS/Sources/scratch-link/Session.swift:213-224 | a request built by one session is dispatched by another with the request's id as the reply id, and nothing else happens |
| SessionProperties.ReplyReadBack | macOS/Sources/scratch-link/Session.swift:238-249 | the envelope built for a request id is a response naming that id, and the completion arguments read from it equal the `(result, error)` it was built from, with the error passed through `JSONRPCError(fromJSON:)` |
| SessionProperties.ReplyResolves | macOS/Sources/scratch-link/Session.swift:227-249 | the reply to a registered request invokes the registered completion with that outcome, and leaves the table as it was before the request |
| SessionProperties.RequestAnsweredEndToEnd | macOS/Sources/scratch-link/Session.swift:109-250 | a loopback exchange between two sessions. The request sent by one is dispatched by the other, whose reply, delivered back, resolves the original completion exactly once and restores the sender's table |

## Left out

- Mutexes and concurrency: the session and socket mutexes only serialise steps. Each operation here is one atomic step, and no interleaving is modelled. This includes re-entrant use of the session mutex by a completion called inside `didReceiveCall`.
- WebSocket I/O: reads and writes become the `bytes` input and the actions a step returns. The callback that closes the socket after "Message too big" is sent is modelled as a close that immediately follows the text frame.
- `JSONSerialization`: decoding is an input, either a JSON value or the description of the error it threw. Encoding plus the write is an `encode` parameter. The byte-level JSON grammar is not modelled.
- `JSONRPCError`: its source file is not part of this model. Its codes and messages are assumed to be those of section 5.1 of the JSON-RPC 2.0 specification (-32700 "Parse error", -32600 "Invalid Request", -32603 "Internal error"); the message strings in particular cannot be checked against the code. `JSONRPCError(fromJSON:)` is the parameter `fromJson`. `JSONRPCError(fromJSON:)` is the parameter `fromJson`.
- `didReceiveCall`: an application override, modelled as a parameter that returns or throws. Replies the application sends later through the completion are modelled separately, with `SendResponse`.
- Logging: the `print` calls in `sessionWasClosed` and the encode-failure paths have no observable effect here.
- `GetNextId`: the counter is an unbounded natural number, so overflow of Swift's `Int` after 2^63 requests is not modelled.
- `AsInt`: Foundation's bridging of JSON booleans to `NSNumber`, which lets `true` pass as the integer 1, is not modelled. Booleans are never integers here.
- `SessionWasClosed`: Swift's dictionary iteration order is unspecified, so the order is an input that must list every pending id once.
- NonObjectIsParseError: the decoded input `Decoded(j)` admits a top-level scalar, which Foundation never produces here because `.fragmentsAllowed` is not passed (such text arrives as `DecodeFailed`); the lemma therefore speaks only of top-level arrays, and `DidReceiveData` on a `Decoded` scalar is an input the source never sees.
- `didReceiveBinary` is folded into `OnChunk`: it only forwards the encoded reply to the socket.
- `SessionError.MutexInit` in `init` is left out: mutex initialisation is not modelled.
