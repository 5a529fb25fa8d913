# Session publishing and the transcoding multiset's listener registry

A Dafny model of two small pieces of logic from a distributed coordination
service:

- **The `Session` interface** (`PrimitiveSession`, `session.dfy`). A session is the
  replicated service's handle on one client. The model covers the `State` enum and its
  `active` flag, the deprecated `timeout()` shim over `maxTimeout()`, and the three
  `publish` convenience overloads. Each overload builds one `PrimitiveEvent` and ends in
  exactly one call to the abstract `publish(PrimitiveEvent)`. That abstract call is
  modelled as appending the event to the session's `published` trace. An encoder is any
  total Dafny function from values to bytes; see "Left out" for encoders that throw.
- **The transcoding multiset's listener registry** (`TranscodingMultiset`, `transcoding.dfy`).
  Client listeners are keyed by object identity (`ListenerRef`). Each one is mapped to an
  internal adapter that wraps it. `addListener` is compute-if-absent and always forwards
  the stored adapter to the backing multiset. `removeListener` forwards the removed adapter,
  or returns an already-completed future for an unknown listener. The backing multiset is
  seen only as a trace of the calls made to it. Each adapter created is a new object,
  modelled by a serial drawn from a creation counter. The adapter's `event` keeps the
  event's name and type and decodes its entry once; the entry decoder is a total function.

`scalars.dfy` holds the fixed-width types kept explicit: bytes and Java `long`.
`backup_protocol.dfy` holds the two primary-backup responses as plain records. They
carry no logic in the source.

## Model

| member | source | states |
|---|---|---|
| PrimitiveSession.State.Active | primitives/src/main/java/io/atomix/primitive/session/Session.java:166-180 | `active` is read from the flag each constant was declared with. It is true exactly for `OPEN` and `SUSPICIOUS`, and false exactly for `EXPIRED` and `CLOSED`. |
| PrimitiveSession.Timeout | primitives/src/main/java/io/atomix/primitive/session/Session.java:84-87 | The deprecated timeout always equals the maximum timeout. |
| PrimitiveSession.Publish | primitives/src/main/java/io/atomix/primitive/session/Session.java:156-161 | The abstract publish appends exactly the given event at the end of the trace. Identity, timeouts and state are unchanged. |
| PrimitiveSession.PublishEmpty | primitives/src/main/java/io/atomix/primitive/session/Session.java:124-131 | Publishing only an event type appends exactly one event, with that type and a zero-length payload. Nothing else changes. |
| PrimitiveSession.PublishBytes | primitives/src/main/java/io/atomix/primitive/session/Session.java:145-154 | Publishing a type and bytes appends exactly one event, carrying that type and exactly those bytes. Nothing else changes. |
| PrimitiveSession.PublishEncoded | primitives/src/main/java/io/atomix/primitive/session/Session.java:133-143 | Publishing a typed value appends exactly one event whose payload is the encoder applied once to the value. |
| PrimitiveSession.PublishEncodedIsPublishBytes | primitives/src/main/java/io/atomix/primitive/session/Session.java:129-154 | The encoded overload equals the byte overload applied to `encoder(value)`. The byte overload with no bytes equals the type-only overload. |
| PrimitiveSession.DispatchAppendsOne | primitives/src/main/java/io/atomix/primitive/session/Session.java:129-161 | Whichever overload is called, it appends exactly one event, the one an independent reference says that call produces. Nothing else changes. |
| PrimitiveSession.EventsOfIndex | primitives/src/main/java/io/atomix/primitive/session/Session.java:129-154 | A sequence of overload calls produces one event per call, and the i-th event is the one the i-th call builds. |
| PrimitiveSession.PublishAllTrace | primitives/src/main/java/io/atomix/primitive/session/Session.java:129-161 | Any sequence of overload calls extends the trace by exactly one event per call, in call order. |
| PrimitiveSession.PublishAllNth | primitives/src/main/java/io/atomix/primitive/session/Session.java:129-161 | After any sequence of overload calls, the trace has grown by exactly one event per call, and the i-th new event is the one the i-th call builds. |
| PrimitiveSession.PublishAllKeepsSession | primitives/src/main/java/io/atomix/primitive/session/Session.java:129-161 | Any sequence of overload calls leaves identity, timeouts and state untouched. |
| PrimitiveSession.PublishAllKeepsTimeoutAndState | primitives/src/main/java/io/atomix/primitive/session/Session.java:84-108 | Publishing never changes the deprecated timeout or whether the session is active. |
| TranscodingMultiset.Empty | core/src/main/java/io/atomix/core/set/impl/TranscodingAsyncDistributedMultiset.java:36-45 | A new multiset starts with an empty listener map and no backing calls, and satisfies the registry invariant. |
| TranscodingMultiset.AddListener | core/src/main/java/io/atomix/core/set/impl/TranscodingAsyncDistributedMultiset.java:47-54 | For an unregistered listener, add creates exactly one new entry, whose adapter wraps that listener. For a registered listener, add leaves the map unchanged. Either way it forwards the stored adapter once to the backing add and returns the future of that call, identified by its position in the backing trace. No other entry changes, and the invariant is kept. |
| TranscodingMultiset.RemoveListener | core/src/main/java/io/atomix/core/set/impl/TranscodingAsyncDistributedMultiset.java:56-66 | For a registered listener, remove deletes its entry and forwards exactly the stored adapter to the backing remove, returning that call's future. For an unknown listener, it changes nothing, makes no backing call and returns an already-completed future. No other entry changes. |
| TranscodingMultiset.AdaptersDistinct | core/src/main/java/io/atomix/core/set/impl/TranscodingAsyncDistributedMultiset.java:50-51 | In a valid registry, different listeners never share an adapter. |
| TranscodingMultiset.NewAdapterIsFresh | core/src/main/java/io/atomix/core/set/impl/TranscodingAsyncDistributedMultiset.java:50-51 | The adapter that compute-if-absent creates is a new object. It differs from every adapter stored before and from every adapter already sent to the backing multiset. |
| TranscodingMultiset.DistinctIdentitiesSeparateEntries | core/src/main/java/io/atomix/core/set/impl/TranscodingAsyncDistributedMultiset.java:36 | Two distinct listener objects get separate entries with distinct adapters, each wrapping its own listener. |
| TranscodingMultiset.RepeatedAddReusesAdapter | core/src/main/java/io/atomix/core/set/impl/TranscodingAsyncDistributedMultiset.java:50-52 | A second add of the same listener leaves the map as the first add left it. It forwards the same adapter to the backing multiset again, as a second backing call with a future of its own. |
| TranscodingMultiset.AddThenRemoveRestoresMap | core/src/main/java/io/atomix/core/set/impl/TranscodingAsyncDistributedMultiset.java:48-66 | Adding an unregistered listener and then removing it restores the original map. The backing multiset receives an add and a remove of the same adapter, and the remove returns the future of the second of those calls. |
| TranscodingMultiset.AddTwiceRemoveOnce | core/src/main/java/io/atomix/core/set/impl/TranscodingAsyncDistributedMultiset.java:48-66 | After two adds and one remove, the listener is unregistered and the backing trace holds add, add and remove of one adapter. A further remove is a no-op returning an already-completed future. |
| TranscodingMultiset.Forward | core/src/main/java/io/atomix/core/set/impl/TranscodingAsyncDistributedMultiset.java:81-87 | The adapter's `event` delivers to the listener it wraps. The delivered event keeps the original name and type, and its entry is the decoder applied once to the original entry. |
| TranscodingMultiset.ForwardReachesOnlyItsListener | core/src/main/java/io/atomix/core/set/impl/TranscodingAsyncDistributedMultiset.java:73-88 | An event passing through a registered listener's adapter reaches that listener and no other registered one. It keeps its name and type, and its entry is the decoder applied once to the original entry. |
| TranscodingMultiset.ForwardDecodesEncoded | core/src/main/java/io/atomix/core/set/impl/TranscodingAsyncDistributedMultiset.java:82-87 | If the decoder undoes the encoder on an entry, forwarding the encoded event delivers the original event to the wrapped listener. |
| TranscodingMultiset.ForwardAllPreservesStream | core/src/main/java/io/atomix/core/set/impl/TranscodingAsyncDistributedMultiset.java:81-87 | Over a stream of events, an adapter makes one delivery per event, in order, all to its wrapped listener. Each delivery carries that event's name, type and decoded entry. |
| TranscodingMultiset.RunMatchesReference | core/src/main/java/io/atomix/core/set/impl/TranscodingAsyncDistributedMultiset.java:47-66 | Any sequence of adds and removes keeps the invariant. The registered listeners equal a plain set-insert/set-delete reference. The backing trace is only appended to. It grows by one call per add and one per remove of a listener that was registered. |

## Left out

- `synchronized (listeners)` and `CompletableFuture`. Each add or remove is one atomic step. A future is either the result of one backing call (`Delegated`, naming the call by its position in the backing trace) or one completed on the spot (`CompletedImmediately`).
- The backing `AsyncDistributedMultiset`'s own semantics, and whether it delivers events to an adapter registered twice. It is foreign code, so backing calls are only recorded in a trace.
- The superclass `TranscodingAsyncDistributedCollection`, and with it the encoding of outgoing entries. It is not part of this model. `EncodeEntry` exists only to state the decoding round trip.
- `sync(Duration)` and `BlockingDistributedMultiset`: a blocking wrapper over code that is not part of this model.
- `Session`'s accessors `sessionId`, `serviceName`, `serviceType`, `nodeId`, `minTimeout`, `maxTimeout` and `getState`. The interface declares them without bodies, so they are plain record fields.
- `Session`'s `addListener` and `removeListener`. They are abstract in the interface, so there is no behaviour to model.
- PrimitiveSession.Publish: models the abstract `publish(PrimitiveEvent)` as an unconditional append. The interface gives it no body, so the model says nothing about what an implementation does once the session is expired or closed. An implementation may ignore publishes on a terminal session; the interface code does not say either way.
- Session state transitions, the `minTimeout`/`maxTimeout` timers, and exactly-once in-order delivery across reconnects. These are promises of the replication engine described in the interface's doc comment, and no code in the interface implements them.
- A `null` byte array passed to `publish(eventType, bytes)`, which throws `NullPointerException`. Dafny sequences are never null.
- A `byte[]` payload is treated as an immutable value. The byte overload hands the caller's own array to the event, so a caller that later mutates it would change the published payload; the model has no aliasing.
- PrimitiveSession.PublishEncoded: an encoder that throws, or that returns `null` and so triggers the `NullPointerException`, is not modelled. In Java nothing then reaches `publish(PrimitiveEvent)`; here the encoder is a total function and exactly one event is always appended. The same holds for `DispatchAppendsOne`, `PublishAllTrace` and `PublishAllNth`.
- TranscodingMultiset.Forward: an entry decoder that throws is not modelled. In Java the wrapped listener's `event` is then never called; here the decoder is a total function and a delivery always happens.
- The internals of `HeapBytes`, `PrimitiveEvent`, `EventType`, `SessionId`, `NodeId`, `PrimitiveType` and `SetEvent.Type`, which are opaque values here.
- The `Status` enumeration of the primary-backup responses. It is defined outside this model and is kept as an opaque code.
- `RestoreResponse` and `MetadataResponse` beyond their fields. They are immutable holders, with no restore-index monotonicity or other logic.
