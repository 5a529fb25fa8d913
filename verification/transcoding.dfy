/**
  The listener registry and event transcoding of the transcoding multiset.

  Client listeners (`SetEventListener<E1>`) are known only by object identity,
  modelled as a `ListenerRef`. For each registered client listener the multiset
  keeps one internal adapter (`InternalBackingSetEventListener`) that wraps it;
  a new adapter is a new object, so it gets the next serial of an allocation
  counter. The backing multiset is seen only through the calls made to it, kept
  as an append-only trace; a returned future is either the backing call's own
  result or one completed on the spot.
 */
module TranscodingMultiset {

  /** The identity of a client listener object; two different refs are two different objects. */
  datatype ListenerRef = ListenerRef(address: nat)

  /** An internal adapter object: its own identity, and the client listener it forwards to. */
  datatype Adapter = Adapter(serial: nat, wrapped: ListenerRef)

  /** A call forwarded to the backing multiset. */
  datatype BackingCall = BackingAdd(adapter: Adapter) | BackingRemove(adapter: Adapter)

  /**
    The future handed back to the caller: the result of the backing call at a given
    position of the backing trace, or one completed on the spot.
   */
  datatype Completion = Delegated(at: nat) | CompletedImmediately

  /**
    The mutable part of one transcoding multiset: the identity-keyed listener map,
    how many adapters it has created, and every call made to the backing multiset.
   */
  datatype Registry = Registry(listeners: map<ListenerRef, Adapter>, created: nat, backing: seq<BackingCall>)

  /** The outcome of `addListener` or `removeListener`: the registry afterwards and the returned future. */
  datatype Step = Step(next: Registry, result: Completion)

  /**
    Every stored adapter wraps the listener it is stored under, and every adapter
    the registry has ever handed out (stored or sent to the backing multiset) was
    created by it.
   */
  ghost predicate Valid(r: Registry)
  {
    && (forall l :: l in r.listeners ==> r.listeners[l].wrapped == l && r.listeners[l].serial < r.created)
    && (forall i :: 0 <= i < |r.backing| ==> r.backing[i].adapter.serial < r.created)
  }

  /** A freshly constructed multiset: no listeners, no adapters, no backing calls. */
  function Empty(): (r: Registry)
    ensures Valid(r)
    ensures r.listeners == map[] && r.backing == []
  {
    Registry(map[], 0, [])
  }

  /** True when `a` and `b` hold the same entry, or no entry, for every listener other than `l`. */
  ghost predicate OthersUnchanged(a: Registry, b: Registry, l: ListenerRef)
  {
    forall k :: k != l ==>
      && (k in a.listeners <==> k in b.listeners)
      && (k in a.listeners ==> a.listeners[k] == b.listeners[k])
  }

  /**
    `addListener`: compute-if-absent on the identity map, then always forward the
    stored adapter to the backing multiset and return the backing call's future.
   */
  function AddListener(r: Registry, l: ListenerRef): (s: Step)
    ensures l in s.next.listeners
    ensures s.next.backing == r.backing + [BackingAdd(s.next.listeners[l])]
    ensures s.result == Delegated(|r.backing|)
    ensures l in r.listeners ==>
      && s.next.listeners == r.listeners
      && s.next.created == r.created
    ensures l !in r.listeners ==>
      && s.next.listeners.Keys == r.listeners.Keys + {l}
      && s.next.listeners[l].wrapped == l
      && s.next.created == r.created + 1
    ensures OthersUnchanged(r, s.next, l)
    ensures Valid(r) ==> Valid(s.next) && s.next.listeners[l].wrapped == l
  {
    if l in r.listeners then
      var a := r.listeners[l];
      Step(r.(backing := r.backing + [BackingAdd(a)]), Delegated(|r.backing|))
    else
      var a := Adapter(r.created, l);
      Step(Registry(r.listeners[l := a], r.created + 1, r.backing + [BackingAdd(a)]), Delegated(|r.backing|))
  }

  /**
    `removeListener`: remove the entry; when there was one, forward its adapter to
    the backing multiset, otherwise return a completed future without a backing call.
   */
  function RemoveListener(r: Registry, l: ListenerRef): (s: Step)
    ensures l !in s.next.listeners
    ensures s.next.listeners.Keys == r.listeners.Keys - {l}
    ensures s.next.created == r.created
    ensures l in r.listeners ==>
      && s.next.backing == r.backing + [BackingRemove(r.listeners[l])]
      && s.result == Delegated(|r.backing|)
    ensures l !in r.listeners ==>
      && s.next == r
      && s.result == CompletedImmediately
    ensures OthersUnchanged(r, s.next, l)
    ensures Valid(r) ==> Valid(s.next)
  {
    if l in r.listeners then
      var a := r.listeners[l];
      Step(r.(listeners := r.listeners - {l}, backing := r.backing + [BackingRemove(a)]), Delegated(|r.backing|))
    else
      Step(r, CompletedImmediately)
  }

  /** In a valid registry no two listeners share an adapter. */
  lemma AdaptersDistinct(r: Registry, a: ListenerRef, b: ListenerRef)
    requires Valid(r)
    requires a in r.listeners && b in r.listeners && a != b
    ensures r.listeners[a] != r.listeners[b]
  {
  }

  /** A newly created adapter is a new object: it differs from every adapter handed out before. */
  lemma NewAdapterIsFresh(r: Registry, l: ListenerRef)
    requires Valid(r)
    requires l !in r.listeners
    ensures forall k :: k in r.listeners ==> r.listeners[k] != AddListener(r, l).next.listeners[l]
    ensures forall i :: 0 <= i < |r.backing| ==> r.backing[i].adapter != AddListener(r, l).next.listeners[l]
  {
  }

  /**
    Registration is by identity: two distinct listener objects get two entries and
    two distinct adapters.
   */
  lemma DistinctIdentitiesSeparateEntries(r: Registry, a: ListenerRef, b: ListenerRef)
    requires Valid(r)
    requires a != b
    ensures var r2 := AddListener(AddListener(r, a).next, b).next;
      && a in r2.listeners && b in r2.listeners
      && r2.listeners[a].wrapped == a && r2.listeners[b].wrapped == b
      && r2.listeners[a] != r2.listeners[b]
  {
  }

  /**
    A repeated add reuses the adapter of the first add and leaves the map as the first
    add left it; it is a second backing call, so it returns a second future.
   */
  lemma RepeatedAddReusesAdapter(r: Registry, l: ListenerRef)
    ensures var s1 := AddListener(r, l); var s2 := AddListener(s1.next, l);
      && s2.next.listeners == s1.next.listeners
      && s2.next.backing == s1.next.backing + [BackingAdd(s1.next.listeners[l])]
      && s2.result == Delegated(|r.backing| + 1) != s1.result
  {
  }

  /**
    Adding an unregistered listener and removing it again restores the map, and the
    backing multiset sees the add and the remove of one and the same adapter.
   */
  lemma AddThenRemoveRestoresMap(r: Registry, l: ListenerRef)
    requires l !in r.listeners
    ensures var a := AddListener(r, l).next.listeners[l];
      var s := RemoveListener(AddListener(r, l).next, l);
      && s.next.listeners == r.listeners
      && s.next.backing == r.backing + [BackingAdd(a), BackingRemove(a)]
      && s.result == Delegated(|r.backing| + 1)
  {
  }

  /**
    Adding a listener twice and removing it once leaves it unregistered; all three
    backing calls carry the same adapter, so the backing multiset's last word about
    that adapter is its removal. A second remove is a no-op with a completed future.
   */
  lemma AddTwiceRemoveOnce(r: Registry, l: ListenerRef)
    ensures var s1 := AddListener(r, l);
      var a := s1.next.listeners[l];
      var s2 := AddListener(s1.next, l);
      var s3 := RemoveListener(s2.next, l);
      var s4 := RemoveListener(s3.next, l);
      && l !in s3.next.listeners
      && s3.next.backing == r.backing + [BackingAdd(a), BackingAdd(a), BackingRemove(a)]
      && s4.next == s3.next
      && s4.result == CompletedImmediately
  {
  }

  /** A set event: the multiset's name, the event type, and one entry. The type is opaque. */
  datatype SetEvent<K, E> = SetEvent(name: string, kind: K, entry: E)

  /** One call of a client listener's `event` method. */
  datatype Delivery<K, E> = Delivery(recipient: ListenerRef, event: SetEvent<K, E>)

  /** The adapter's `event`: rebuild the event with the decoded entry and hand it to the wrapped listener. */
  function Forward<K, E2, E1>(a: Adapter, decoder: E2 -> E1, ev: SetEvent<K, E2>): (d: Delivery<K, E1>)
    ensures d.recipient == a.wrapped
    ensures d.event.name == ev.name && d.event.kind == ev.kind
    ensures d.event.entry == decoder(ev.entry)
  {
    Delivery(a.wrapped, SetEvent(ev.name, ev.kind, decoder(ev.entry)))
  }

  /** Replaces an event's entry by its encoding: what the backing multiset sees for an `E1` event. */
  function EncodeEntry<K, E1, E2>(encoder: E1 -> E2, ev: SetEvent<K, E1>): SetEvent<K, E2>
  {
    SetEvent(ev.name, ev.kind, encoder(ev.entry))
  }

  /**
    Through a registered listener's adapter an event reaches that listener and no
    other, keeps its name and type, and carries the decoder applied once to its entry.
   */
  lemma ForwardReachesOnlyItsListener<K, E2, E1>(r: Registry, l: ListenerRef, decoder: E2 -> E1, ev: SetEvent<K, E2>)
    requires Valid(r)
    requires l in r.listeners
    ensures var d := Forward(r.listeners[l], decoder, ev);
      && d.recipient == l
      && (forall k :: k in r.listeners && k != l ==> r.listeners[k].wrapped != d.recipient)
      && d.event.name == ev.name && d.event.kind == ev.kind
      && d.event.entry == decoder(ev.entry)
  {
  }

  /** When the decoder undoes the encoder, forwarding an encoded event hands back the original event. */
  lemma ForwardDecodesEncoded<K, E1, E2>(a: Adapter, encoder: E1 -> E2, decoder: E2 -> E1, ev: SetEvent<K, E1>)
    requires decoder(encoder(ev.entry)) == ev.entry
    ensures Forward(a, decoder, EncodeEntry(encoder, ev)) == Delivery(a.wrapped, ev)
  {
  }

  /** The adapter applied to a stream of backing events, one delivery per event. */
  function ForwardAll<K, E2, E1>(a: Adapter, decoder: E2 -> E1, evs: seq<SetEvent<K, E2>>): seq<Delivery<K, E1>>
    decreases |evs|
  {
    if |evs| == 0 then []
    else [Forward(a, decoder, evs[0])] + ForwardAll(a, decoder, evs[1..])
  }

  /**
    An adapter neither drops, duplicates nor reorders events: the i-th delivery goes
    to the wrapped listener and carries the i-th event's name, type and decoded entry.
   */
  lemma {:induction false} ForwardAllPreservesStream<K, E2, E1>(a: Adapter, decoder: E2 -> E1, evs: seq<SetEvent<K, E2>>)
    ensures |ForwardAll(a, decoder, evs)| == |evs|
    ensures forall i :: 0 <= i < |evs| ==>
      && ForwardAll(a, decoder, evs)[i].recipient == a.wrapped
      && ForwardAll(a, decoder, evs)[i].event == SetEvent(evs[i].name, evs[i].kind, decoder(evs[i].entry))
    decreases |evs|
  {
    if |evs| > 0 {
      ForwardAllPreservesStream(a, decoder, evs[1..]);
      var ds := ForwardAll(a, decoder, evs);
      assert ds == [Forward(a, decoder, evs[0])] + ForwardAll(a, decoder, evs[1..]);
      forall i | 0 <= i < |evs|
        ensures ds[i].recipient == a.wrapped
        ensures ds[i].event == SetEvent(evs[i].name, evs[i].kind, decoder(evs[i].entry))
      {
        if i > 0 {
          assert ds[i] == ForwardAll(a, decoder, evs[1..])[i - 1];
          assert evs[1..][i - 1] == evs[i];
        }
      }
    }
  }

  /** A registration call made on the multiset. */
  datatype Op = Add(listener: ListenerRef) | Remove(listener: ListenerRef)

  /** Applies the calls in order, each as one atomic step. */
  function Run(r: Registry, ops: seq<Op>): Registry
    decreases |ops|
  {
    if |ops| == 0 then r
    else
      var s := match ops[0]
        case Add(l) => AddListener(r, l)
        case Remove(l) => RemoveListener(r, l);
      Run(s.next, ops[1..])
  }

  /** Reference semantics: the registered listeners as a plain set of identities. */
  function RegisteredAfter(keys: set<ListenerRef>, ops: seq<Op>): set<ListenerRef>
    decreases |ops|
  {
    if |ops| == 0 then keys
    else match ops[0]
      case Add(l) => RegisteredAfter(keys + {l}, ops[1..])
      case Remove(l) => RegisteredAfter(keys - {l}, ops[1..])
  }

  /** Reference count of backing calls: every add forwards, a remove forwards only for a registered listener. */
  function BackingCallsAfter(keys: set<ListenerRef>, ops: seq<Op>): nat
    decreases |ops|
  {
    if |ops| == 0 then 0
    else match ops[0]
      case Add(l) => 1 + BackingCallsAfter(keys + {l}, ops[1..])
      case Remove(l) => (if l in keys then 1 else 0) + BackingCallsAfter(keys - {l}, ops[1..])
  }

  /**
    Any run of adds and removes keeps the registry valid, registers exactly the
    listeners the set reference says, only appends to the backing trace, and makes
    exactly as many backing calls as the reference counts.
   */
  lemma {:induction false} RunMatchesReference(r: Registry, ops: seq<Op>)
    requires Valid(r)
    ensures Valid(Run(r, ops))
    ensures Run(r, ops).listeners.Keys == RegisteredAfter(r.listeners.Keys, ops)
    ensures |Run(r, ops).backing| == |r.backing| + BackingCallsAfter(r.listeners.Keys, ops)
    ensures Run(r, ops).backing[..|r.backing|] == r.backing
    decreases |ops|
  {
    if |ops| > 0 {
      var keys := r.listeners.Keys;
      var s := match ops[0]
        case Add(l) => AddListener(r, l)
        case Remove(l) => RemoveListener(r, l);
      assert Run(r, ops) == Run(s.next, ops[1..]);
      RunMatchesReference(s.next, ops[1..]);
      match ops[0] {
        case Add(l) =>
          assert s.next.listeners.Keys == keys + {l};
          assert RegisteredAfter(keys, ops) == RegisteredAfter(keys + {l}, ops[1..]);
          assert BackingCallsAfter(keys, ops) == 1 + BackingCallsAfter(keys + {l}, ops[1..]);
          assert |s.next.backing| == |r.backing| + 1;
        case Remove(l) =>
          assert s.next.listeners.Keys == keys - {l};
          assert RegisteredAfter(keys, ops) == RegisteredAfter(keys - {l}, ops[1..]);
          assert BackingCallsAfter(keys, ops) == (if l in keys then 1 else 0) + BackingCallsAfter(keys - {l}, ops[1..]);
          assert |s.next.backing| == |r.backing| + (if l in keys then 1 else 0);
      }
      var b := Run(r, ops).backing;
      assert b[..|s.next.backing|] == s.next.backing;
      assert s.next.backing[..|r.backing|] == r.backing;
      assert b[..|r.backing|] == b[..|s.next.backing|][..|r.backing|];
    }
  }
}
