# stomptok in Dafny

This is a model of the incremental STOMP frame tokenizer `StompTok` in
`index.js`, with proofs about it. It covers three things:

- the tokenizer's scratch accumulator `ParserStack`;
- the byte classes the tokenizer tests;
- every state handler, from `startState` to `doneState`, together with the
  `parse` driver that feeds a chunk through them.

The tokenizer reports a frame as a stream of events: frame start, the method
name, each header key and value, frame end, and `error` with a kind. The
model records these events, in emission order, in the field `trace`.

Layout:

- `ascii.dfy` (module `Ascii`): the `byte` type (0..255, one element of a
  Node `Buffer`), the constants `NL`, `NR`, `EOF` and `D2`, and the three
  byte-class predicates.
- `parser_stack.dfy` (module `Stack`): class `ParserStack`. It has the write
  index `idx` and a fixed buffer `arr`. The ghost view `Contents()` is
  `arr[..idx]`.
- `tok_spec.dfy` (module `TokSpec`): the tokenizer as a value.
  - `Tok` holds the state, the accumulator contents, the declared body length
    and the trace.
  - `Next` says what the handler of the current state does with one byte.
  - `Run` folds `Next` over a chunk.
  - `NextShape` states what every step keeps.
  - `RunAppend` states that splitting a chunk anywhere changes nothing.
- `tok_props.dfy`: properties of `Run`.
  - Module `TokProps` holds whole-chunk invariants.
  - Module `TokFrames` holds the frame-level behaviour: padding, rejection,
    accumulation and overflow. It also proves a round trip: a well-formed
    frame without a body, encoded as bytes with either line ending, is
    reported as exactly its events, and so is a sequence of such frames.
- `stomp_tok.dfy` (module `Stomp`): class `StompTok`.
  - Its fields are those of the JavaScript class.
  - There is one method per state handler. Each one loops over the chunk as
    the source does and is proved equal to `Run` on the bytes it consumed.
  - `Step` dispatches on the state.
  - `Parse` calls `Step` until the chunk is used up. It is proved to leave
    the object in the state `Run` computes for the whole chunk.

In the source, each handler hands the rest of the chunk straight to the next
state's handler (`return (idx < data.length) ? this.parseState(rc) : rc`). In
the model, the handler returns its position instead, and `Parse` calls the
next handler. The bytes are consumed in the same order, with the same effect.

Where the code's behaviour differs from the STOMP frame grammar, the model
follows the code:

- A header line that ends without a colon does not produce an error. The
  tokenizer goes back to the start of a line, the accumulator is not emptied,
  and those bytes become the front of the next key (`KeyWithoutColonLeaks`).
- A token that overflows the 32-byte accumulator produces one `too_big` for
  each byte that does not fit. The first 32 bytes are kept and are handed out
  when the token ends (`MethodAccumulated`, `TokenRun`).
- The error kinds are the ones the code emits:
  - `inval_method` after a `\r` that is not followed by `\n` (`hdrLineAlmostDone`);
  - `inval_reqline` for a byte that is not printable at the start of a header
    line (`hdrLineDone`) and after a `\r` on the blank line (`almostDoneState`).
- Nothing in the code assigns the content-length fields after construction.
  So `contentLeft` stays 0 and the length-delimited body reader is never
  chosen (`BodyReadUnreachable`).

Three places in the source cannot run as written. The model gives each the
behaviour the surrounding code evidently intends:

- `index.js:112` calls `super.emitMethod`, which the `EventEmitter` base
  class does not have. Line 118 emits `'method'` on the same event, so the
  model emits the method name there.
- `index.js:270-271` and `index.js:300-301` use an `rc` that is never
  declared. The model continues with the rest of the chunk, as every other
  handler does.
- `index.js:282-297` is C++, not JavaScript. The model keeps only its choice
  of state: after the header block, a byte that is not NUL selects
  `BodyRead` if `contentLeft > 0`, and `BodyReadNoLength` otherwise. Neither
  body reader exists in the source, so in the model a body state keeps its
  bytes unread, and `Parse` stops when it reaches one.

## Model

| member | source | states |
|---|---|---|
| Ascii.IsAsciiUpper | index.js:44-46 | an upper-case letter is printable, not a space and not the colon, so it can never end a method name |
| Ascii.IsPrintNoSpace | index.js:48-50 | holds exactly for the printable bytes other than the space |
| Ascii.IsPrint | index.js:52-54 | a printable byte is never `\n`, `\r` or NUL, so line ends always end a header value |
| Stack.ParserStack.constructor | index.js:4-8 | the buffer has the requested size and is zero-filled; the accumulator starts empty |
| Stack.ParserStack.Push | index.js:10-17 | succeeds exactly when the index is below the buffer length; on success the byte is appended to the contents, on failure nothing changes; other positions are untouched |
| Stack.ParserStack.Clear | index.js:19-21 | resets only the index: the contents become empty and the buffer keeps its bytes |
| Stack.ParserStack.Pop | index.js:23-27 | returns the accumulated bytes in push order and leaves the accumulator empty, with the buffer unchanged |
| Stack.ParserStack.Size | index.js:29-31 | the number of accumulated bytes, never above the buffer length |
| Stack.ParserStack.Capacity | index.js:33-36 | capacity plus size is the buffer length; capacity is 0 exactly when the accumulator is full |
| Stack.PushAllThenPop | index.js:10-27 | pushing a byte sequence and then popping returns the first `size` bytes (all of them if they fit), in order |
| TokSpec.NextShape | index.js:74-302 | every handler step keeps the declared length, appends at most one event, keeps the accumulator within 32 bytes; an error leaves the state and accumulator as they were; a token event carries exactly the accumulated bytes and empties the accumulator; a body state is left untouched |
| TokSpec.RunAppend | index.js:340-345 | feeding `a` and then `b` ends in the same tokenizer, trace included, as feeding `a + b` |
| TokProps.RunShape | index.js:56-302 | over any chunk: the declared length is kept, events are only ever appended, and the accumulator stays within its capacity |
| TokProps.RunBodyAbsorbs | index.js:282-297 | once a body state is chosen, further bytes change nothing the tokenizer tracks |
| TokFrames.TokenRun | index.js:99-256 | in the method, key or value state, a run of token bytes is accumulated up to 32 bytes, each further byte gives one `too_big`, and the state does not change |
| TokFrames.PaddingSkipped | index.js:74-80 | the start state skips any run of `\n`, `\r` and NUL without an event |
| TokFrames.GarbageRejected | index.js:82-85 | after padding, a byte that is not upper-case gives one `inval_reqline` and is dropped |
| TokFrames.FrameStarted | index.js:87-90 | after padding, an upper-case byte starts a frame, empties the accumulator and pushes the byte, in the method state |
| TokFrames.HeaderEventsShape | index.js:177-256 | `k` headers are reported as `k` key/value pairs, in order |
| TokFrames.LineEnd | index.js:108-121 | in the method or value state, `\n` or `\r\n` hands the accumulator out as the token and moves to the start of a header line |
| TokFrames.MethodAccumulated | index.js:99-107 | any upper-case run from the start state starts one frame, keeps the first 32 bytes and reports one `too_big` per byte over |
| TokFrames.MethodCapacityBoundary | index.js:99-107 | a 33-byte method keeps its first 32 bytes and reports exactly one `too_big` |
| TokFrames.MethodToken | index.js:99-107 | a method name of 1 to 32 upper-case bytes is accumulated whole, without an error |
| TokFrames.MethodLine | index.js:99-121 | a method line reports frame start and then the method name, and ends at the start of a header line |
| TokFrames.KeyToken | index.js:146-196 | key bytes at the start of a line are appended to what the accumulator holds, in the key state |
| TokFrames.KeyColon | index.js:177-187 | a key followed by `:` reports the key and moves to the value state |
| TokFrames.ValueLine | index.js:220-245 | a value and its line end report the value and return to the start of a header line |
| TokFrames.HeaderLine | index.js:146-245 | a header line reports its key and then its value |
| TokFrames.HeaderLines | index.js:146-245 | a header block reports every header in order and ends at the start of a line with an empty accumulator |
| TokFrames.KeyWithoutColonLeaks | index.js:197-202 | a key line ended without a colon reports nothing and keeps its bytes, which become the front of the next key |
| TokFrames.DoneEntersBody | index.js:274-297 | after the header block, a byte other than NUL picks the body reader by the declared length, and later bytes are absorbed |
| TokFrames.BodyReadUnreachable | index.js:61-63 | with the declared length at 0, as construction leaves it, no chunk reaches the length-delimited body reader |
| TokFrames.FrameHead | index.js:74-272 | a method line, a header block and the blank line report frame start, the method and every header, and end in `Done` |
| TokFrames.FrameRoundTrip | index.js:74-302 | a well-formed frame without a body, encoded with `\n` or `\r\n` line ends and terminated by NUL, is reported as exactly its events and returns to the start state |
| TokFrames.FramesRoundTrip | index.js:74-302 | frames back to back in one chunk are reported one after the other, ending in the start state |
| TokFrames.DemoChunk | index.js:362 | the demonstration chunk reports frame start, `CONNNECT`, `my`/`friend` and `very`/`funny`, and waits in `Done` for the NUL |
| Stomp.StompTok.constructor | index.js:57-72 | starts in the start state with an empty 32-byte accumulator, no events and zero content-length fields |
| Stomp.StompTok.EmitEvent | index.js:304-338 | appends one event to the trace and changes nothing else |
| Stomp.StompTok.StartState | index.js:74-97 | consumes at least one byte and has exactly the effect `Run` gives those bytes |
| Stomp.StompTok.MethodState | index.js:99-130 | consumes at least one byte and has exactly the effect `Run` gives those bytes |
| Stomp.StompTok.HdrLineAlmostDoneState | index.js:132-144 | consumes one byte, with the effect `Next` gives it |
| Stomp.StompTok.HdrLineDoneState | index.js:146-175 | consumes one byte, with the effect `Next` gives it |
| Stomp.StompTok.HdrLineKeyState | index.js:177-218 | consumes at least one byte and has exactly the effect `Run` gives those bytes |
| Stomp.StompTok.HdrLineValState | index.js:220-256 | consumes at least one byte and has exactly the effect `Run` gives those bytes |
| Stomp.StompTok.AlmostDoneState | index.js:258-272 | consumes one byte, with the effect `Next` gives it |
| Stomp.StompTok.DoneState | index.js:274-302 | has the effect `Next` gives the current byte; consumes it only if it is NUL, and otherwise leaves the tokenizer in a body state |
| Stomp.StompTok.Step | index.js:341-344 | runs the current state's handler: either a byte is consumed or a body state is reached, and the rest of the chunk still has the effect the whole had |
| Stomp.StompTok.Parse | index.js:340-345 | terminates and leaves the tokenizer, accumulator and trace included, exactly in the state `Run` computes for the whole chunk |
| Stomp.ParseSplit | index.js:340-345 | a tokenizer fed `a` and then `b` ends in the same state with the same events as one fed `a + b` |

## Left out

- Event-emitter plumbing (`addListener`, `on`, `once`, the `on*` callbacks and the `emit*` wrappers, `index.js:304-338`): each emitted event is appended to `trace` instead of being delivered to listeners.
- The demonstration at `index.js:349-362` and its console output. Only its chunk is used, in `DemoChunk`.
- Body reading: the source has no `body_read` or `body_read_no_length` handler. A body state keeps the chunk's remaining bytes unread.
- Stomp.StompTok.Parse: stops at a body state and does not consume the rest of the chunk, because the source has no body handler to hand those bytes to.
- Content-length tracking: the source declares `contentLength`, `contentLeft` and `isContentLength` but never assigns them after construction. The model keeps them as fields with their initial values.
- Buffer aliasing: `pop` returns `arr.subarray(0, idx)`, a view that later pushes overwrite. Stack.ParserStack.Pop returns a copy, so the model does not capture a listener seeing a token change after it was emitted.
- The runtime errors of the three defects (`index.js:112`, `270-271`, `300-301`) and the fact that `index.js:282-297` does not parse as JavaScript: the model follows the intended behaviour described above.
- Call-stack depth: each source handler calls the next one directly, so the recursion grows with the number of tokens in a chunk. The model's loop has no such limit.
