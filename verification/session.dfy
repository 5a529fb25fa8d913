/**
  The concrete part of the `Session` interface: the `State` enum with its `active`
  flag, the deprecated `timeout()` accessor, and the three `publish` convenience
  overloads, each of which builds one `PrimitiveEvent` and hands it to the single
  abstract `publish(PrimitiveEvent)`.

  The abstract `publish(PrimitiveEvent)` is modelled as appending the event to the
  session's `published` trace; an encoder is any total function from values to bytes.
 */
module PrimitiveSession {
  import opened Scalars

  /** The session state enum. Each constant carries the `active` flag it was declared with. */
  datatype State = Open | Suspicious | Expired | Closed {

    /** Position of the constant in declaration order. */
    function Ordinal(): (n: nat)
      ensures n < |ActiveFlags|
    {
      match this
      case Open => 0
      case Suspicious => 1
      case Expired => 2
      case Closed => 3
    }

    /** The `active` field, as set by the enum constant's constructor argument. */
    function Active(): (b: bool)
      ensures b <==> (this == Open || this == Suspicious)
      ensures !b <==> (this == Expired || this == Closed)
    {
      ActiveFlags[Ordinal()]
    }
  }

  /** The constructor arguments of `OPEN`, `SUSPICIOUS`, `EXPIRED`, `CLOSED`, in that order. */
  const ActiveFlags: seq<bool> := [true, true, false, false]

  /** Opaque identities; their internals are not part of this model. */
  datatype SessionId = SessionId(id: int64)
  datatype NodeId = NodeId(id: string)
  datatype PrimitiveType = PrimitiveType(name: string)
  datatype EventType = EventType(id: string)

  /** A primitive event: an event type tag and a payload, empty meaning zero bytes. */
  datatype PrimitiveEvent = PrimitiveEvent(eventType: EventType, payload: seq<byte>)

  /** The empty payload (`HeapBytes.EMPTY`). */
  const EmptyPayload: seq<byte> := []

  /**
    What a session exposes: its identity accessors, the two timeout bounds, its
    current state, and the events handed to `publish(PrimitiveEvent)` so far.
   */
  datatype Session = Session(
    sessionId: SessionId,
    serviceName: string,
    serviceType: PrimitiveType,
    nodeId: NodeId,
    minTimeout: int64,
    maxTimeout: int64,
    state: State,
    published: seq<PrimitiveEvent>)

  /** The deprecated single timeout: a shim over the maximum timeout, never a stored value of its own. */
  function Timeout(s: Session): (t: int64)
    ensures t == s.maxTimeout
  {
    s.maxTimeout
  }

  /** True when `a` and `b` agree on everything except the published trace. */
  ghost predicate SameExceptTrace(a: Session, b: Session)
  {
    && a.sessionId == b.sessionId
    && a.serviceName == b.serviceName
    && a.serviceType == b.serviceType
    && a.nodeId == b.nodeId
    && a.minTimeout == b.minTimeout
    && a.maxTimeout == b.maxTimeout
    && a.state == b.state
  }

  /** True when `r` is `s` with exactly `e` appended to its published trace and nothing else changed. */
  ghost predicate PublishedOne(s: Session, r: Session, e: PrimitiveEvent)
  {
    && r.published == s.published + [e]
    && SameExceptTrace(s, r)
  }

  /** The abstract `publish(PrimitiveEvent)`: one more event at the end of the trace. */
  function Publish(s: Session, e: PrimitiveEvent): (r: Session)
    ensures PublishedOne(s, r, e)
    ensures |r.published| == |s.published| + 1 && r.published[|s.published|] == e
  {
    s.(published := s.published + [e])
  }

  /** `publish(eventType)`: one event with that type and an empty payload. */
  function PublishEmpty(s: Session, eventType: EventType): (r: Session)
    ensures PublishedOne(s, r, PrimitiveEvent(eventType, []))
    ensures r.published[|s.published|].payload == []
  {
    Publish(s, PrimitiveEvent(eventType, EmptyPayload))
  }

  /** `publish(eventType, bytes)`: one event carrying that type and exactly those bytes. */
  function PublishBytes(s: Session, eventType: EventType, bytes: seq<byte>): (r: Session)
    ensures PublishedOne(s, r, PrimitiveEvent(eventType, bytes))
  {
    Publish(s, PrimitiveEvent(eventType, bytes))
  }

  /** `publish(eventType, encoder, value)`: encodes the value once and publishes the bytes. */
  function PublishEncoded<T>(s: Session, eventType: EventType, encoder: T -> seq<byte>, value: T): (r: Session)
    ensures PublishedOne(s, r, PrimitiveEvent(eventType, encoder(value)))
  {
    PublishBytes(s, eventType, encoder(value))
  }

  /** The encoded overload is the byte overload applied to the encoder's output. */
  lemma PublishEncodedIsPublishBytes<T>(s: Session, eventType: EventType, encoder: T -> seq<byte>, value: T)
    ensures PublishEncoded(s, eventType, encoder, value) == PublishBytes(s, eventType, encoder(value))
    ensures PublishBytes(s, eventType, []) == PublishEmpty(s, eventType)
  {
  }

  /** One call of a convenience overload, for a value type `T` with a fixed encoder. */
  datatype PublishCall<T> =
    | TypeOnly(eventType: EventType)
    | WithBytes(eventType: EventType, bytes: seq<byte>)
    | WithValue(eventType: EventType, value: T)

  /** Dispatches one call to the overload it names. */
  function Dispatch<T>(s: Session, encoder: T -> seq<byte>, call: PublishCall<T>): Session
  {
    match call
    case TypeOnly(t) => PublishEmpty(s, t)
    case WithBytes(t, b) => PublishBytes(s, t, b)
    case WithValue(t, v) => PublishEncoded(s, t, encoder, v)
  }

  /** Issues the calls one after another. */
  function PublishAll<T>(s: Session, encoder: T -> seq<byte>, calls: seq<PublishCall<T>>): Session
    decreases |calls|
  {
    if |calls| == 0 then s
    else PublishAll(Dispatch(s, encoder, calls[0]), encoder, calls[1..])
  }

  /** The event each overload builds, defined without going through `Publish`. */
  function EventOf<T>(encoder: T -> seq<byte>, call: PublishCall<T>): PrimitiveEvent
  {
    match call
    case TypeOnly(t) => PrimitiveEvent(t, [])
    case WithBytes(t, b) => PrimitiveEvent(t, b)
    case WithValue(t, v) => PrimitiveEvent(t, encoder(v))
  }

  /** The events a sequence of calls produces, in call order. */
  function EventsOf<T>(encoder: T -> seq<byte>, calls: seq<PublishCall<T>>): seq<PrimitiveEvent>
    decreases |calls|
  {
    if |calls| == 0 then []
    else [EventOf(encoder, calls[0])] + EventsOf(encoder, calls[1..])
  }

  /** One event per call, the i-th event being the i-th call's. */
  lemma {:induction false} EventsOfIndex<T>(encoder: T -> seq<byte>, calls: seq<PublishCall<T>>)
    ensures |EventsOf(encoder, calls)| == |calls|
    ensures forall i :: 0 <= i < |calls| ==> EventsOf(encoder, calls)[i] == EventOf(encoder, calls[i])
    decreases |calls|
  {
    if |calls| > 0 {
      EventsOfIndex(encoder, calls[1..]);
      forall i | 0 < i < |calls|
        ensures EventsOf(encoder, calls)[i] == EventOf(encoder, calls[i])
      {
        assert calls[1..][i - 1] == calls[i];
      }
    }
  }

  /** Every overload appends exactly the one event the reference says, and changes nothing else. */
  lemma DispatchAppendsOne<T>(s: Session, encoder: T -> seq<byte>, call: PublishCall<T>)
    ensures PublishedOne(s, Dispatch(s, encoder, call), EventOf(encoder, call))
  {
  }

  /**
    Any run of convenience calls extends the trace by exactly one event per call,
    in call order.
   */
  lemma {:induction false} PublishAllTrace<T>(s: Session, encoder: T -> seq<byte>, calls: seq<PublishCall<T>>)
    ensures PublishAll(s, encoder, calls).published == s.published + EventsOf(encoder, calls)
    decreases |calls|
  {
    if |calls| == 0 {
      assert EventsOf(encoder, calls) == [];
    } else {
      var e := EventOf(encoder, calls[0]);
      var s1 := Dispatch(s, encoder, calls[0]);
      DispatchAppendsOne(s, encoder, calls[0]);
      assert s1.published == s.published + [e];
      PublishAllTrace(s1, encoder, calls[1..]);
      assert PublishAll(s, encoder, calls) == PublishAll(s1, encoder, calls[1..]);
      assert s.published + [e] + EventsOf(encoder, calls[1..]) == s.published + ([e] + EventsOf(encoder, calls[1..]));
    }
  }

  /**
    Any run of convenience calls publishes, right after the events already in the
    trace, the i-th call's event at the i-th new position.
   */
  lemma PublishAllNth<T>(s: Session, encoder: T -> seq<byte>, calls: seq<PublishCall<T>>)
    ensures |PublishAll(s, encoder, calls).published| == |s.published| + |calls|
    ensures forall i :: 0 <= i < |calls| ==>
      PublishAll(s, encoder, calls).published[|s.published| + i] == EventOf(encoder, calls[i])
  {
    PublishAllTrace(s, encoder, calls);
    EventsOfIndex(encoder, calls);
    var p := PublishAll(s, encoder, calls).published;
    forall i | 0 <= i < |calls|
      ensures p[|s.published| + i] == EventOf(encoder, calls[i])
    {
      assert p[|s.published| + i] == EventsOf(encoder, calls)[i];
    }
  }

  /** Any run of convenience calls leaves identity, timeouts and state untouched. */
  lemma {:induction false} PublishAllKeepsSession<T>(s: Session, encoder: T -> seq<byte>, calls: seq<PublishCall<T>>)
    ensures SameExceptTrace(s, PublishAll(s, encoder, calls))
    decreases |calls|
  {
    if |calls| > 0 {
      var s1 := Dispatch(s, encoder, calls[0]);
      DispatchAppendsOne(s, encoder, calls[0]);
      PublishAllKeepsSession(s1, encoder, calls[1..]);
    }
  }

  /** Publishing never moves the deprecated timeout or the session state. */
  lemma PublishAllKeepsTimeoutAndState<T>(s: Session, encoder: T -> seq<byte>, calls: seq<PublishCall<T>>)
    ensures Timeout(PublishAll(s, encoder, calls)) == Timeout(s)
    ensures PublishAll(s, encoder, calls).state.Active() == s.state.Active()
  {
    PublishAllKeepsSession(s, encoder, calls);
  }
}
