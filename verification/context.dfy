/** The per-batch effect tracker handed to user function code.

    A tracker is an immutable record: the target address, the current caller,
    one slot per state name declared in the persisted snapshot, and the three
    ordered lists of outbound effects. Every operation is a pure function that
    returns the error (if any) together with the tracker after the call;
    `Self()` and `Caller()` are the `self` and `caller` fields. */
module Context {
  import opened Wrappers
  import opened Serialization

  const MinInt64: int := -0x8000_0000_0000_0000
  const MaxInt64: int := 0x7fff_ffff_ffff_ffff

  /** Go's `int64`, used by `time.Duration` and `DelayInMs`. */
  type Int64 = x: int | MinInt64 <= x <= MaxInt64

  const NanosPerMilli: int := 1_000_000

  /** A function instance: namespace and type name, plus the instance id. */
  datatype Address = Address(namespace: string, typeName: string, id: string)

  datatype EgressIdentifier = EgressIdentifier(egressNamespace: string, egressType: string)

  /** One entry of the persisted snapshot sent with the batch. */
  datatype PersistedValue = PersistedValue(stateName: string, stateValue: Bytes)

  /** A declared state value: `updated` marks it dirty, `value` None is nil. */
  datatype Slot = Slot(updated: bool, value: Option<Payload>)

  datatype Invocation = Invocation(target: Address, argument: Payload)

  datatype DelayedInvocation = DelayedInvocation(target: Address, delayInMs: Int64, argument: Payload)

  datatype EgressMessage = EgressMessage(egressNamespace: string, egressType: string, argument: Payload)

  datatype Tracker = Tracker(
    self: Address,
    caller: Option<Address>,
    states: map<string, Slot>,
    invocations: seq<Invocation>,
    delayedInvocations: seq<DelayedInvocation>,
    outgoingEgress: seq<EgressMessage>)

  datatype Error =
    | UnknownState(name: string)
    | NilMessageToFunction
    | NilMessageToEgress
    | NoCaller
    | CodecFailure(reason: string)
    | StateEncodingFailed
    | HandlerFailure(reason: string)

  /** What a state-changing operation returns: its error, and the tracker
      after the call. */
  datatype Step = Step(outcome: Outcome<Error>, next: Tracker)

  /** `after` is `before` with exactly `x` appended. */
  predicate Appends<X(==)>(before: seq<X>, after: seq<X>, x: X)
  {
    |after| == |before| + 1 && after[..|before|] == before && after[|before|] == x
  }

  predicate SameIdentity(t: Tracker, u: Tracker)
  {
    t.self == u.self && t.caller == u.caller
  }

  predicate SameEffects(t: Tracker, u: Tracker)
  {
    && t.invocations == u.invocations
    && t.delayedInvocations == u.delayedInvocations
    && t.outgoingEgress == u.outgoingEgress
  }

  /** `u` differs from `t` at most in the slot `name`: same declared names,
      every other slot, the identity and the effect lists are unchanged. */
  predicate OnlySlotChanged(t: Tracker, u: Tracker, name: string)
  {
    && SameIdentity(t, u)
    && SameEffects(t, u)
    && t.states.Keys == u.states.Keys
    && forall n :: n in t.states && n != name ==> n in u.states && u.states[n] == t.states[n]
  }

  /** A slot with a stored value: not nil and with a non-empty type URL. */
  predicate HasValue(s: Slot)
  {
    s.value.Some? && s.value.value.typeUrl != ""
  }

  /** The slot construction builds from one persisted entry. */
  function InitialSlot<T>(c: Codec<T>, bytes: Bytes): Slot
  {
    Slot(false, Some(DecodeOrEmpty(c, bytes)))
  }

  /** No entry after position `i` carries the same name as entry `i`. */
  predicate LastOccurrence(persisted: seq<PersistedValue>, i: int)
    requires 0 <= i < |persisted|
  {
    forall j :: i < j < |persisted| ==> persisted[j].stateName != persisted[i].stateName
  }

  /** The state map built by the construction loop: every slot clean and
      holding a value, even when its bytes do not decode. */
  function LoadStates<T>(c: Codec<T>, persisted: seq<PersistedValue>): (states: map<string, Slot>)
    ensures forall n :: n in states ==> !states[n].updated && states[n].value.Some?
    decreases |persisted|
  {
    if persisted == [] then map[]
    else
      var last := persisted[|persisted| - 1];
      LoadStates(c, persisted[..|persisted| - 1])[last.stateName := InitialSlot(c, last.stateValue)]
  }

  /** Loading one more persisted entry overwrites that entry's name. */
  lemma LoadStatesSnoc<T>(c: Codec<T>, persisted: seq<PersistedValue>, p: PersistedValue)
    ensures LoadStates(c, persisted + [p]) == LoadStates(c, persisted)[p.stateName := InitialSlot(c, p.stateValue)]
  {
  }

  /** The construction loop declares exactly the persisted names, and a
      later entry with the same name replaces an earlier one. */
  lemma {:induction false} LoadStatesSpec<T>(c: Codec<T>, persisted: seq<PersistedValue>)
    ensures var states := LoadStates(c, persisted);
            forall n :: n in states <==> exists i :: 0 <= i < |persisted| && persisted[i].stateName == n
    ensures var states := LoadStates(c, persisted);
            forall i :: 0 <= i < |persisted| && LastOccurrence(persisted, i) ==>
              persisted[i].stateName in states && states[persisted[i].stateName] == InitialSlot(c, persisted[i].stateValue)
    decreases |persisted|
  {
    if persisted != [] {
      var front := persisted[..|persisted| - 1];
      var last := persisted[|persisted| - 1];
      var earlier := LoadStates(c, front);
      var states := earlier[last.stateName := InitialSlot(c, last.stateValue)];
      assert LoadStates(c, persisted) == states;
      LoadStatesSpec(c, front);
      assert forall i :: 0 <= i < |front| ==> front[i] == persisted[i];
      LoadStatesExtendKeys(persisted, earlier.Keys, states.Keys);
      LoadStatesExtendLast(c, persisted, earlier);
    }
  }

  /** One step of the construction loop keeps the declared names: `earlier`
      holds the names of all entries but the last. */
  lemma LoadStatesExtendKeys(persisted: seq<PersistedValue>, earlier: set<string>, keys: set<string>)
    requires persisted != []
    requires keys == earlier + {persisted[|persisted| - 1].stateName}
    requires forall n :: n in earlier <==>
               exists i :: 0 <= i < |persisted| - 1 && persisted[i].stateName == n
    ensures forall n :: n in keys <==> exists i :: 0 <= i < |persisted| && persisted[i].stateName == n
  {
  }

  /** One step of the construction loop keeps the last-entry-wins property:
      `earlier` is the map built from all entries but the last. */
  lemma LoadStatesExtendLast<T>(c: Codec<T>, persisted: seq<PersistedValue>, earlier: map<string, Slot>)
    requires persisted != []
    requires var front := persisted[..|persisted| - 1];
             forall i :: 0 <= i < |front| && LastOccurrence(front, i) ==>
               front[i].stateName in earlier && earlier[front[i].stateName] == InitialSlot(c, front[i].stateValue)
    ensures var last := persisted[|persisted| - 1];
            var states := earlier[last.stateName := InitialSlot(c, last.stateValue)];
            forall i :: 0 <= i < |persisted| && LastOccurrence(persisted, i) ==>
              persisted[i].stateName in states && states[persisted[i].stateName] == InitialSlot(c, persisted[i].stateValue)
  {
    var front := persisted[..|persisted| - 1];
    var last := persisted[|persisted| - 1];
    var states := earlier[last.stateName := InitialSlot(c, last.stateValue)];
    forall i | 0 <= i < |persisted| && LastOccurrence(persisted, i)
      ensures persisted[i].stateName in states && states[persisted[i].stateName] == InitialSlot(c, persisted[i].stateValue)
    {
      if i < |front| {
        assert persisted[i].stateName != last.stateName;
        assert forall j :: i < j < |front| ==> front[j] == persisted[j];
        assert LastOccurrence(front, i);
        assert front[i] == persisted[i];
      }
    }
  }

  /** `newStateFunIO`: the tracker for a batch targeting `self` with the given
      persisted snapshot. */
  function NewStateFunIO<T>(c: Codec<T>, self: Address, persisted: seq<PersistedValue>): (t: Tracker)
    ensures t.self == self && t.caller == None
    ensures t.invocations == [] && t.delayedInvocations == [] && t.outgoingEgress == []
    ensures forall n :: n in t.states <==> exists i :: 0 <= i < |persisted| && persisted[i].stateName == n
    ensures forall i :: 0 <= i < |persisted| && LastOccurrence(persisted, i) ==>
              t.states[persisted[i].stateName] == InitialSlot(c, persisted[i].stateValue)
    ensures forall n :: n in t.states ==> !t.states[n].updated
  {
    LoadStatesSpec(c, persisted);
    Tracker(self, None, LoadStates(c, persisted), [], [], [])
  }

  /** `Get`: reads state `name` into `receiver` and returns the receiver's new
      contents. An undeclared name is an error; a slot with no stored value
      leaves the receiver as it was; otherwise the stored `Any` is
      unmarshalled into the receiver. */
  function Get<T>(c: Codec<T>, t: Tracker, name: string, receiver: Option<Message<T>>): (r: Result<Option<Message<T>>, Error>)
    ensures r == Failure(UnknownState(name)) <==> name !in t.states
    ensures name in t.states && !HasValue(t.states[name]) ==> r == Success(receiver)
    ensures name in t.states && HasValue(t.states[name]) ==>
              (r.Success? <==> Unmarshall(c, t.states[name].value.value, receiver).Success?)
    ensures name in t.states && HasValue(t.states[name]) && r.Success? ==>
              r.value == Some(Unmarshall(c, t.states[name].value.value, receiver).value)
  {
    if name !in t.states then Failure(UnknownState(name))
    else
      var slot := t.states[name];
      if !HasValue(slot) then Success(receiver)
      else
        match Unmarshall(c, slot.value.value, receiver)
        case Success(m) => Success(Some(m))
        case Failure(e) => Failure(CodecFailure(e))
  }

  /** `Set`: stores `value` (nil clears) under a declared name and marks the
      slot dirty, whether or not the value changed. An undeclared name or a
      marshalling failure is an error and changes nothing. */
  function Set<T>(c: Codec<T>, t: Tracker, name: string, value: Option<Message<T>>): (s: Step)
    ensures s.outcome.Pass? <==> name in t.states && Marshall(c, value).Success?
    ensures name !in t.states ==> s == Step(Fail(UnknownState(name)), t)
    ensures s.outcome.Fail? ==> s.next == t
    ensures s.outcome.Pass? ==>
              && OnlySlotChanged(t, s.next, name)
              && s.next.states[name] == Slot(true, Marshall(c, value).value)
  {
    if name !in t.states then Step(Fail(UnknownState(name)), t)
    else
      match Marshall(c, value)
      case Failure(e) => Step(Fail(CodecFailure(e)), t)
      case Success(packed) => Step(Pass, t.(states := t.states[name := Slot(true, packed)]))
  }

  /** `Clear`: `Set` with a nil value, its error discarded. A declared slot
      becomes dirty and nil; an undeclared name leaves the tracker as it is. */
  function Clear<T>(c: Codec<T>, t: Tracker, name: string): (u: Tracker)
    ensures name !in t.states ==> u == t
    ensures name in t.states ==> OnlySlotChanged(t, u, name) && u.states[name] == Slot(true, None)
  {
    Set(c, t, name, None).next
  }

  /** `Send`: appends an invocation of `target` with the marshalled message.
      A nil message or a marshalling failure is an error and appends nothing. */
  function Send<T>(c: Codec<T>, t: Tracker, target: Address, message: Option<Message<T>>): (s: Step)
    ensures message.None? ==> s == Step(Fail(NilMessageToFunction), t)
    ensures s.outcome.Pass? <==> message.Some? && Pack(c, message.value).Success?
    ensures s.outcome.Fail? ==> s.next == t
    ensures s.outcome.Pass? ==>
              && SameIdentity(t, s.next)
              && s.next.states == t.states
              && Appends(t.invocations, s.next.invocations, Invocation(target, Pack(c, message.value).value))
              && s.next.delayedInvocations == t.delayedInvocations
              && s.next.outgoingEgress == t.outgoingEgress
  {
    if message.None? then Step(Fail(NilMessageToFunction), t)
    else
      match Pack(c, message.value)
      case Failure(e) => Step(Fail(CodecFailure(e)), t)
      case Success(packed) => Step(Pass, t.(invocations := t.invocations + [Invocation(target, packed)]))
  }

  /** `Reply`: without a caller it fails and changes nothing; with one it is
      exactly `Send` to the caller. */
  function Reply<T>(c: Codec<T>, t: Tracker, message: Option<Message<T>>): (s: Step)
    ensures s.outcome == Fail(NoCaller) <==> t.caller.None?
    ensures t.caller.None? ==> s.next == t
    ensures t.caller.Some? ==> s == Send(c, t, t.caller.value, message)
  {
    if t.caller.None? then Step(Fail(NoCaller), t)
    else Send(c, t, t.caller.value, message)
  }

  function Abs(x: int): nat
  {
    if x < 0 then -x else x
  }

  /** `Duration.Milliseconds`: nanoseconds divided by one million, truncated
      toward zero (Go division), which is not Dafny's Euclidean division for
      negative durations. */
  function Milliseconds(d: Int64): (ms: Int64)
    ensures Abs(ms) * NanosPerMilli <= Abs(d) < (Abs(ms) + 1) * NanosPerMilli
    ensures ms == 0 || (ms < 0 <==> d < 0)
  {
    if d >= 0 then Abs(d) / NanosPerMilli else -(Abs(d) / NanosPerMilli)
  }

  /** `SendAfter`: appends a delayed invocation of `target` carrying the
      delay in whole milliseconds. Same validation as `Send`. */
  function SendAfter<T>(c: Codec<T>, t: Tracker, target: Address, duration: Int64, message: Option<Message<T>>): (s: Step)
    ensures message.None? ==> s == Step(Fail(NilMessageToFunction), t)
    ensures s.outcome.Pass? <==> message.Some? && Pack(c, message.value).Success?
    ensures s.outcome.Fail? ==> s.next == t
    ensures s.outcome.Pass? ==>
              && SameIdentity(t, s.next)
              && s.next.states == t.states
              && s.next.invocations == t.invocations
              && Appends(t.delayedInvocations, s.next.delayedInvocations,
                         DelayedInvocation(target, Milliseconds(duration), Pack(c, message.value).value))
              && s.next.outgoingEgress == t.outgoingEgress
  {
    if message.None? then Step(Fail(NilMessageToFunction), t)
    else
      match Pack(c, message.value)
      case Failure(e) => Step(Fail(CodecFailure(e)), t)
      case Success(packed) =>
        var delayed := DelayedInvocation(target, Milliseconds(duration), packed);
        Step(Pass, t.(delayedInvocations := t.delayedInvocations + [delayed]))
  }

  /** `SendEgress`: appends a message to the egress channel. Same validation
      as `Send`, with its own nil-message error. */
  function SendEgress<T>(c: Codec<T>, t: Tracker, egress: EgressIdentifier, message: Option<Message<T>>): (s: Step)
    ensures message.None? ==> s == Step(Fail(NilMessageToEgress), t)
    ensures s.outcome.Pass? <==> message.Some? && Pack(c, message.value).Success?
    ensures s.outcome.Fail? ==> s.next == t
    ensures s.outcome.Pass? ==>
              && SameIdentity(t, s.next)
              && s.next.states == t.states
              && s.next.invocations == t.invocations
              && s.next.delayedInvocations == t.delayedInvocations
              && Appends(t.outgoingEgress, s.next.outgoingEgress,
                         EgressMessage(egress.egressNamespace, egress.egressType, Pack(c, message.value).value))
  {
    if message.None? then Step(Fail(NilMessageToEgress), t)
    else
      match Pack(c, message.value)
      case Failure(e) => Step(Fail(CodecFailure(e)), t)
      case Success(packed) =>
        var out := EgressMessage(egress.egressNamespace, egress.egressType, packed);
        Step(Pass, t.(outgoingEgress := t.outgoingEgress + [out]))
  }

  /** A state mutation of the response; `Delete` carries nil bytes. */
  datatype Mutation = Modify(bytes: Bytes) | Delete

  /** The invocation response. The mutations are keyed by state name: the
      source emits them in map iteration order, which carries no meaning. */
  datatype InvocationResponse = InvocationResponse(
    stateMutations: map<string, Mutation>,
    outgoingMessages: seq<Invocation>,
    delayedInvocations: seq<DelayedInvocation>,
    outgoingEgresses: seq<EgressMessage>)

  /** A dirty slot whose non-nil value the wire encoder rejects. */
  predicate EncodeFails<T>(c: Codec<T>, s: Slot)
  {
    s.updated && s.value.Some? && c.encodeAny(s.value.value).Failure?
  }

  /** The mutation a dirty slot contributes. */
  function MutationOf<T>(c: Codec<T>, s: Slot): Mutation
    requires !EncodeFails(c, s) && s.updated
  {
    if s.value.None? then Delete else Modify(c.encodeAny(s.value.value).value)
  }

  /** The diff `fromFunction` produces: one mutation per dirty slot and none
      for the others, `Delete` exactly for a nil value and `Modify` with the
      encoded `Any` otherwise, and the three effect lists in call order. It
      fails exactly when some dirty value cannot be encoded. */
  function Diff<T>(c: Codec<T>, t: Tracker): (r: Result<InvocationResponse, Error>)
    ensures r.Failure? <==> exists n :: n in t.states && EncodeFails(c, t.states[n])
    ensures r.Failure? ==> r.error == StateEncodingFailed
    ensures r.Success? ==>
              forall n :: n in r.value.stateMutations <==> n in t.states && t.states[n].updated
    ensures r.Success? ==>
              forall n :: n in r.value.stateMutations ==>
                (r.value.stateMutations[n] == Delete <==> t.states[n].value.None?)
    ensures r.Success? ==>
              forall n :: n in r.value.stateMutations && r.value.stateMutations[n].Modify? ==>
                c.encodeAny(t.states[n].value.value) == Success(r.value.stateMutations[n].bytes)
    ensures r.Success? ==>
              && r.value.outgoingMessages == t.invocations
              && r.value.delayedInvocations == t.delayedInvocations
              && r.value.outgoingEgresses == t.outgoingEgress
  {
    if exists n :: n in t.states && EncodeFails(c, t.states[n]) then Failure(StateEncodingFailed)
    else
      var mutations := map n | n in t.states && t.states[n].updated :: MutationOf(c, t.states[n]);
      Success(InvocationResponse(mutations, t.invocations, t.delayedInvocations, t.outgoingEgress))
  }

  /** `fromFunction` as the source runs it: a walk over the slots in an
      arbitrary order that skips clean slots, stops at the first encoding
      failure, and otherwise collects one mutation per dirty slot. Whatever
      order the walk takes, the result is `Diff`. */
  method FromFunction<T>(c: Codec<T>, t: Tracker) returns (r: Result<InvocationResponse, Error>)
    ensures r == Diff(c, t)
  {
    var mutations: map<string, Mutation> := map[];
    var pending := t.states.Keys;
    while pending != {}
      invariant pending <= t.states.Keys
      invariant forall n :: n in mutations <==> n in t.states && n !in pending && t.states[n].updated
      invariant forall n :: n in t.states && n !in pending ==> !EncodeFails(c, t.states[n])
      invariant forall n :: n in mutations ==> mutations[n] == MutationOf(c, t.states[n])
      decreases pending
    {
      var name :| name in pending;
      pending := pending - {name};
      var slot := t.states[name];
      if slot.updated {
        if slot.value.None? {
          mutations := mutations[name := Delete];
        } else {
          match c.encodeAny(slot.value.value)
          case Failure(_) =>
            assert EncodeFails(c, t.states[name]);
            return Failure(StateEncodingFailed);
          case Success(bytes) =>
            mutations := mutations[name := Modify(bytes)];
        }
      }
    }
    assert !exists n :: n in t.states && EncodeFails(c, t.states[n]);
    assert mutations == map n | n in t.states && t.states[n].updated :: MutationOf(c, t.states[n]);
    r := Success(InvocationResponse(mutations, t.invocations, t.delayedInvocations, t.outgoingEgress));
  }
}
