# Effect tracker of the statefun-go remote function binding

This project models the per-batch **effect tracker** of the Go SDK for remote stateful functions.
The binding builds one tracker per invocation batch. The tracker holds:

- the target function address (`Self`) and the current caller (`Caller`);
- one slot per state name declared in the persisted snapshot, with a dirty flag;
- three ordered lists of outbound effects: invocations, delayed invocations and egress messages.

User code reads and writes state and sends messages through the tracker. After the batch, `fromFunction` flushes the tracker into a response diff.

The model is functional. A `Tracker` is an immutable record. Each operation is a pure function that returns the error (if any) together with the tracker after the call. `Self()` and `Caller()` are the record's `self` and `caller` fields. The `Greeter` handler of the binding's tests is modelled as a client of the tracker. The test's batch is proved to flush exactly the response the test expects.

Files:

- `wrappers.dfy`: `Option`, `Result` and `Outcome` (Go's nil pointers and `error` returns).
- `serialization.dfy`: payloads (`google.protobuf.Any`), messages and the codec. The codec is a parameter `Codec<T>` of four functions: pack/unpack an application message into an `Any`, and the wire encoding of an `Any`. `Marshall` and `Unmarshall` fix only what the serialization tests assert: nil marshals to nil, an `Any` marshals to itself, a nil receiver cannot be unmarshalled into, and an `Any` receiver receives a copy. `Lawful` states the codec laws (round trips, non-empty type URL, type-preserving unpack). Only lemmas assume them; every operation is defined for every codec.
- `context.dfy`: the tracker (`context.go`): construction, `Get`, `Set`, `Clear`, `Send`, `Reply`, `SendAfter`, `SendEgress`, and the flush. The flush has two forms. `Diff` is a function. `FromFunction` is a method that walks the slots in an arbitrary order, as Go's map iteration does, and is proved equal to `Diff`.
- `context_laws.dfy`: properties of runs of several calls: the declared names never change, the lists only grow at the end, unnamed slots are untouched, dirty slots stay dirty, and reads see earlier writes.
- `greeter.dfy`: `Greeter.Invoke` and the handler test's three-slot batch.

## Model

| member | source | states |
|---|---|---|
| `Serialization.Pack` | serialization_util_test.go:33-46 | packing an `Any` message yields that same `Any` |
| `Serialization.Marshall` | serialization_util_test.go:33-57 | nil marshals to nil without error; a non-nil message succeeds exactly when packing succeeds, and yields the packed `Any` |
| `Serialization.Unmarshall` | serialization_util_test.go:10-31 | a nil receiver is always an error; an `Any` receiver becomes a copy of the payload; a typed receiver succeeds exactly when the codec decodes, and yields its result |
| `Context.LoadStates` | context.go:101-112 | every constructed slot is clean and holds a value, even when the persisted bytes do not decode |
| `Context.LoadStatesSpec` | context.go:101-112 | the declared names are exactly the persisted names; for each name, the slot is built from its last persisted entry, so a later duplicate overwrites an earlier one |
| `Context.NewStateFunIO` | context.go:85-114 | `self` is the target, `caller` is nil, the three lists are empty; one clean slot per persisted name, the last entry of a name winning; a decode failure never aborts construction |
| `Context.Get` | context.go:125-136 | an undeclared name fails with `UnknownState`, and that is its only cause; a slot that is nil or has an empty type URL succeeds with the receiver unchanged; otherwise it succeeds exactly when unmarshalling does, returning the decoded receiver |
| `Context.Set` | context.go:138-154 | it succeeds exactly when the name is declared and marshalling succeeds; an undeclared name fails with `UnknownState` and changes nothing; any failure leaves the tracker unchanged; on success only that slot changes, to dirty with the marshalled value |
| `Context.Clear` | context.go:156-158 | a declared slot becomes dirty with a nil value and nothing else changes; an undeclared name leaves the tracker unchanged and reports nothing |
| `Context.Send` | context.go:160-181 | a nil message fails and appends nothing; it succeeds exactly when the message packs; on success exactly one invocation is appended at the end, and states, identity and the other lists are unchanged |
| `Context.Reply` | context.go:183-189 | it fails with `NoCaller` exactly when there is no caller, and then changes nothing; with a caller it is exactly `Send` to the caller |
| `Context.Milliseconds` | context.go:207 | the delay is the duration in nanoseconds divided by one million, truncated toward zero: its magnitude is the whole number of milliseconds in the duration's magnitude, and its sign is the duration's |
| `Context.SendAfter` | context.go:191-213 | same validation as `Send`; on success exactly one delayed invocation carrying `Milliseconds(duration)` is appended, and everything else is unchanged |
| `Context.SendEgress` | context.go:215-233 | a nil message fails with the egress error and appends nothing; on success exactly one egress message on the given channel is appended, and everything else is unchanged |
| `Context.Diff` | context.go:235-276 | it fails exactly when a dirty non-nil value cannot be encoded; otherwise it emits one mutation for each dirty slot and none for clean ones, `Delete` exactly when the value is nil, `Modify` with the encoded `Any` otherwise, and returns the three lists verbatim |
| `Context.FromFunction` | context.go:235-277 | the loop over the slots, in whatever order it picks them, returns exactly `Diff` |
| `ContextLaws.ApplyFrame` | context.go:138-233 | one call keeps the declared names, the identity, every slot it does not name and every dirty flag, and only extends the lists |
| `ContextLaws.RunFrame` | context.go:138-233 | over any sequence of calls, no state name is added or removed, the identity is unchanged, each list keeps its old contents as a prefix, a slot no call names is unchanged, and a dirty slot stays dirty |
| `ContextLaws.GetUnaffectedBySetElsewhere` | context.go:125-154 | writing one slot does not change what a read of another slot returns |
| `ContextLaws.GetAfterClear` | context.go:125-158 | after `Clear`, reading the slot succeeds and leaves the receiver untouched |
| `ContextLaws.GetAfterSet` | context.go:125-154 | with a lawful codec, `Set` of a message succeeds, and a later `Get` into a receiver of the same type returns that message |
| `ContextLaws.ClearFlushesDelete` | context.go:246-248 | a cleared slot is flushed as `Delete` |
| `ContextLaws.SendDoesNotDeduplicate` | context.go:179 | two identical sends append two identical invocations |
| `ContextLaws.MillisecondsTruncates` | context.go:207 | for non-negative durations the delay is the Euclidean quotient; negating the duration negates the delay |
| `Greeter.Increment` | stateful_functions_test.go:177 | the increment is `+1` modulo 2^32, and exactly `+1` below the `int32` maximum |
| `Greeter.GreeterInvoke` | stateful_functions_test.go:167-210 | the handler never adds or removes a state name or changes the identity, and it succeeds only when there is a caller |
| `Greeter.GreeterRespond` | stateful_functions_test.go:179-193 | on success there is a caller, and each list has grown by exactly one entry carrying the packed greeting: an invocation of the caller, a delayed invocation of the caller after 60000 ms, and an egress message on `test/egress`; the declared names and the identity are kept |
| `Greeter.GreeterStore` | stateful_functions_test.go:195-209 | an undeclared `modified-state` fails with `UnknownState` and changes nothing; on success `modified-state` is dirty with the marshalled counter, a declared `deleted-state` is dirty and nil, every other slot is unchanged, and `read-only-state` still reads 1 after the writes; the names, identity and lists are kept |
| `Greeter.ScenarioConstruction` | stateful_functions_test.go:47-68 | the test's snapshot builds three clean slots, each holding the packed counter 1 |
| `Greeter.GreeterScenarioRun` | stateful_functions_test.go:165-210 | on the test's batch the handler succeeds; it leaves `modified-state` dirty with counter 2, `deleted-state` dirty and nil, `read-only-state` clean, and one entry in each list |
| `Greeter.GreeterScenario` | stateful_functions_test.go:105-144 | with any lawful codec, the batch flushes exactly two mutations: `modified-state` as `Modify` of counter 2 and `deleted-state` as `Delete`, with `read-only-state` absent; there is one reply to the caller, one delayed invocation of 60000 ms to the caller and one egress message on `test/egress`, all carrying the greeting |
| `Greeter.ScenarioDiff` | stateful_functions_test.go:107-144 | the flush of the final tracker is the expected response, with exactly two mutations |
| `Greeter.ScenarioReadsBack` | stateful_functions_test.go:117-127 | the modified state's bytes decode back to counter 2; `read-only-state` still reads 1 after the other slots were written |
| `Greeter.GreeterRejectsNonInvoke` | stateful_functions_test.go:168-170 | an argument that does not decode as `Invoke` fails the handler before it touches the tracker |
| `Greeter.GreeterNeedsCaller` | stateful_functions_test.go:183-185 | without a caller the handler fails and records no effect; on the test's batch the error is `NoCaller` |

## Left out

- HTTP transport and request validation (method, content type, empty or malformed body): network I/O. The request handler is not part of this model.
- The function registry and the batch loop: their source is not part of this model. In the Greeter scenario, the handler's binding of the caller is a record update.
- Protobuf encoding: `proto.Marshal`/`proto.Unmarshal`, `ptypes.MarshalAny`/`UnmarshalAny` and the bodies of `marshall`/`unmarshall` are foreign calls. They are the `Codec` parameter. A failing `proto.Marshal` in `fromFunction` becomes the abstract error `StateEncodingFailed`.
- Construction decode failures: Go keeps whatever `proto.Unmarshal` left in the `Any`. The model keeps the empty `Any`, which `Get` then treats as "no value". The slot is never nil.
- Pointer aliasing: Go's `Caller()` returns the tracker's own `*Address`, and the tracker stores the `*any.Any` that `marshall` returns, which for an `Any` message is the caller's own pointer. So in Go, user code that writes through those pointers changes the target of a later `Reply` or the contents of the flushed diff. The model holds values, so user code can change the tracker only through its operations.
- Map iteration order in `fromFunction`: Go's order is unspecified, so the mutations are a map keyed by state name. `FromFunction` picks the next slot arbitrarily.
- Error messages: errors are kinds (`UnknownState`, `NilMessageToFunction`, `NilMessageToEgress`, `NoCaller`, `CodecFailure`, `StateEncodingFailed`, `HandlerFailure`), not Go strings.
- `Context.Get`: it returns no tracker, so "Get never modifies the tracker" holds by construction. Its result is the receiver's new contents, standing in for Go's in-place unmarshal.
- `Greeter.GreeterInvoke`: its own contract states only the frame. Its behaviour on the test batch and its failure cases are stated by `GreeterScenario`, `GreeterScenarioRun`, `GreeterRejectsNonInvoke` and `GreeterNeedsCaller`. A read of `modified-state` that does not yield a counter cannot happen in Go, where the receiver is statically a counter. Here it is a handler failure, unreachable under `Lawful`.
- `Greeter.GreeterScenario`: it assumes a lawful codec. The codec facts the test relies on are collected in `ScenarioCodec` and derived from `Lawful`.
- Concurrency: each batch has its own tracker, and there is nothing shared to model.
