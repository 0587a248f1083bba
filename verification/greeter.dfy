/** The `Greeter` handler of the binding's tests, run against the tracker,
    and the batch scenario the handler test checks. */
module Greeter {
  import opened Wrappers
  import opened Serialization
  import opened Context

  newtype int32 = x: int | -0x8000_0000 <= x < 0x8000_0000

  /** The test's message types. */
  datatype TestMessage = Invoke | Greeting(greeting: string) | Counter(count: int32)

  /** The message type name an `Any` records. */
  function MessageName(m: TestMessage): string
  {
    match m
    case Invoke => "Invoke"
    case Greeting(_) => "Greeting"
    case Counter(_) => "Counter"
  }

  /** Go's `x += 1` on an `int32`: wraps around at the top. */
  function Increment(x: int32): (y: int32)
    ensures (y as int - x as int - 1) % 0x1_0000_0000 == 0
    ensures x < 0x7fff_ffff ==> y as int == x as int + 1
  {
    if x == 0x7fff_ffff then -0x8000_0000 else x + 1
  }

  const CallerAddress := Address("remote", "caller", "id2")
  const GreeterAddress := Address("remote", "greeter", "id")
  const TestEgress := EgressIdentifier("test", "egress")
  const Hello: Message<TestMessage> := Proto(Greeting("Hello"))
  /** `time.Duration(6e+10)`: one minute in nanoseconds. */
  const ReplyDelay: Int64 := 60_000_000_000

  /** `Greeter.Invoke`: checks the argument is an `Invoke`, reads and
      increments `modified-state`, then replies (`GreeterRespond`) and
      updates state (`GreeterStore`). An error returns at once with the
      effects made so far. A read of `modified-state` that does not yield a
      counter cannot happen in the source, whose receiver is statically a
      counter; here it is a handler failure. */
  function GreeterInvoke(c: Codec<TestMessage>, io: Tracker, msg: Payload): (s: Step)
    ensures s.next.states.Keys == io.states.Keys
    ensures SameIdentity(io, s.next)
    ensures s.outcome.Pass? ==> io.caller.Some?
  {
    match Unmarshall(c, msg, Some(Proto(Invoke)))
    case Failure(e) => Step(Fail(CodecFailure(e)), io)
    case Success(_) =>
      match Get(c, io, "modified-state", Some(Proto(Counter(0))))
      case Failure(e) => Step(Fail(e), io)
      case Success(read) =>
        if !(read.Some? && read.value.Proto? && read.value.body.Counter?) then
          Step(Fail(HandlerFailure("modified-state is not a counter")), io)
        else
          GreeterRespond(c, io, Increment(read.value.body.count))
  }

  /** The effect half of the handler: reply to the caller, schedule a reply
      one minute later, and emit to egress, each with the greeting; then
      `GreeterStore`. */
  function GreeterRespond(c: Codec<TestMessage>, io: Tracker, count: int32): (s: Step)
    ensures s.next.states.Keys == io.states.Keys
    ensures SameIdentity(io, s.next)
    ensures s.outcome.Pass? ==> io.caller.Some?
    ensures s.outcome.Pass? ==>
              && Pack(c, Hello).Success?
              && Appends(io.invocations, s.next.invocations,
                         Invocation(io.caller.value, Pack(c, Hello).value))
              && Appends(io.delayedInvocations, s.next.delayedInvocations,
                         DelayedInvocation(io.caller.value, 60000, Pack(c, Hello).value))
              && Appends(io.outgoingEgress, s.next.outgoingEgress,
                         EgressMessage("test", "egress", Pack(c, Hello).value))
  {
    var replied := Reply(c, io, Some(Hello));
    if replied.outcome.Fail? then replied
    else
      var delayed := SendAfter(c, replied.next, replied.next.caller.value, ReplyDelay, Some(Hello));
      if delayed.outcome.Fail? then delayed
      else
        var egressed := SendEgress(c, delayed.next, TestEgress, Some(Hello));
        if egressed.outcome.Fail? then egressed
        else GreeterStore(c, egressed.next, count)
  }

  /** The state half of the handler: store the new count, clear
      `deleted-state`, and fail unless `read-only-state` still reads 1. */
  function GreeterStore(c: Codec<TestMessage>, io: Tracker, count: int32): (s: Step)
    ensures s.next.states.Keys == io.states.Keys
    ensures SameIdentity(io, s.next) && SameEffects(io, s.next)
    ensures "modified-state" !in io.states ==> s == Step(Fail(UnknownState("modified-state")), io)
    ensures s.outcome.Pass? ==>
              && "modified-state" in s.next.states
              && Marshall(c, Some(Proto(Counter(count)))).Success?
              && s.next.states["modified-state"] == Slot(true, Marshall(c, Some(Proto(Counter(count)))).value)
    ensures s.outcome.Pass? && "deleted-state" in io.states ==> s.next.states["deleted-state"] == Slot(true, None)
    ensures s.outcome.Pass? ==>
              forall n :: n in io.states && n != "modified-state" && n != "deleted-state" ==>
                s.next.states[n] == io.states[n]
    ensures s.outcome.Pass? ==>
              Get(c, s.next, "read-only-state", Some(Proto(Counter(count)))) == Success(Some(Proto(Counter(1))))
  {
    var stored := Set(c, io, "modified-state", Some(Proto(Counter(count))));
    if stored.outcome.Fail? then stored
    else
      var cleared := Clear(c, stored.next, "deleted-state");
      match Get(c, cleared, "read-only-state", Some(Proto(Counter(count))))
      case Failure(e) => Step(Fail(e), cleared)
      case Success(readOnly) =>
        if readOnly == Some(Proto(Counter(1))) then Step(Pass, cleared)
        else Step(Fail(HandlerFailure("invalid count for read-only state")), cleared)
  }

  /** The codec facts the handler test's batch relies on, each an instance
      of `Lawful`. */
  predicate ScenarioCodec(c: Codec<TestMessage>)
  {
    && c.pack(Invoke).Success?
    && c.unpack(c.pack(Invoke).value, Invoke).Success?
    && c.pack(Greeting("Hello")).Success?
    && c.pack(Counter(1)).Success?
    && c.pack(Counter(1)).value.typeUrl != ""
    && c.encodeAny(c.pack(Counter(1)).value).Success?
    && c.decodeAny(c.encodeAny(c.pack(Counter(1)).value).value) == Success(c.pack(Counter(1)).value)
    && c.unpack(c.pack(Counter(1)).value, Counter(0)) == Success(Counter(1))
    && c.unpack(c.pack(Counter(1)).value, Counter(2)) == Success(Counter(1))
    && c.pack(Counter(2)).Success?
    && c.encodeAny(c.pack(Counter(2)).value).Success?
  }

  lemma LawfulScenarioCodec(c: Codec<TestMessage>)
    requires Lawful(c, MessageName)
    ensures ScenarioCodec(c)
  {
    MarshallRoundTrip(c, MessageName, Invoke, Invoke);
    MarshallRoundTrip(c, MessageName, Counter(1), Counter(0));
    MarshallRoundTrip(c, MessageName, Counter(1), Counter(2));
    PersistRoundTrip(c, MessageName, c.pack(Counter(1)).value);
    PersistRoundTrip(c, MessageName, c.pack(Counter(2)).value);
  }

  /** The persisted bytes of a counter: its `Any`, wire-encoded. */
  function CounterBytes(c: Codec<TestMessage>, n: int32): Bytes
    requires c.pack(Counter(n)).Success?
    requires c.encodeAny(c.pack(Counter(n)).value).Success?
  {
    c.encodeAny(c.pack(Counter(n)).value).value
  }

  function GreetingPayload(c: Codec<TestMessage>): Payload
    requires c.pack(Greeting("Hello")).Success?
  {
    c.pack(Greeting("Hello")).value
  }

  /** The batch of the handler test: three declared slots each holding a
      count of 1, invoked by `CallerAddress`. */
  function ScenarioTracker(c: Codec<TestMessage>): Tracker
    requires ScenarioCodec(c)
  {
    var one := CounterBytes(c, 1);
    var persisted := [PersistedValue("modified-state", one),
                      PersistedValue("deleted-state", one),
                      PersistedValue("read-only-state", one)];
    NewStateFunIO(c, GreeterAddress, persisted).(caller := Some(CallerAddress))
  }

  /** The tracker the handler test's batch starts from: three clean slots,
      each holding the packed counter 1. */
  function ScenarioStart(c: Codec<TestMessage>): Tracker
    requires ScenarioCodec(c)
  {
    var packedOne := c.pack(Counter(1)).value;
    Tracker(GreeterAddress, Some(CallerAddress),
            map["modified-state" := Slot(false, Some(packedOne)),
                "deleted-state" := Slot(false, Some(packedOne)),
                "read-only-state" := Slot(false, Some(packedOne))],
            [], [], [])
  }

  /** The tracker after the handler test's invocation. */
  function ScenarioFinal(c: Codec<TestMessage>): Tracker
    requires ScenarioCodec(c)
  {
    var packedOne := c.pack(Counter(1)).value;
    Tracker(GreeterAddress, Some(CallerAddress),
            map["modified-state" := Slot(true, Some(c.pack(Counter(2)).value)),
                "deleted-state" := Slot(true, None),
                "read-only-state" := Slot(false, Some(packedOne))],
            [Invocation(CallerAddress, GreetingPayload(c))],
            [DelayedInvocation(CallerAddress, 60000, GreetingPayload(c))],
            [EgressMessage("test", "egress", GreetingPayload(c))])
  }

  /** The response the handler test expects. */
  function ExpectedResponse(c: Codec<TestMessage>): InvocationResponse
    requires ScenarioCodec(c)
  {
    InvocationResponse(
      map["modified-state" := Modify(CounterBytes(c, 2)), "deleted-state" := Delete],
      [Invocation(CallerAddress, GreetingPayload(c))],
      [DelayedInvocation(CallerAddress, 60000, GreetingPayload(c))],
      [EgressMessage("test", "egress", GreetingPayload(c))])
  }

  /** Construction from the test's snapshot: every slot clean and holding
      the decoded counter 1. */
  lemma ScenarioConstruction(c: Codec<TestMessage>)
    requires ScenarioCodec(c)
    ensures ScenarioTracker(c) == ScenarioStart(c)
  {
    var one := CounterBytes(c, 1);
    var p0 := PersistedValue("modified-state", one);
    var p1 := PersistedValue("deleted-state", one);
    var p2 := PersistedValue("read-only-state", one);
    var slot := InitialSlot(c, one);
    assert slot == Slot(false, Some(c.pack(Counter(1)).value));
    LoadStatesSnoc(c, [], p0);
    LoadStatesSnoc(c, [p0], p1);
    LoadStatesSnoc(c, [p0, p1], p2);
    assert [p0] + [p1] == [p0, p1];
    assert [p0, p1] + [p2] == [p0, p1, p2];
    assert LoadStates(c, [p0, p1, p2]) == ScenarioStart(c).states;
  }

  /** The state half on the test's batch, after the effects were recorded. */
  lemma ScenarioStore(c: Codec<TestMessage>, io: Tracker)
    requires ScenarioCodec(c)
    requires io == ScenarioStart(c).(invocations := ScenarioFinal(c).invocations,
                                      delayedInvocations := ScenarioFinal(c).delayedInvocations,
                                      outgoingEgress := ScenarioFinal(c).outgoingEgress)
    ensures GreeterStore(c, io, 2) == Step(Pass, ScenarioFinal(c))
  {
  }

  /** The effect half on the test's batch. */
  lemma ScenarioRespond(c: Codec<TestMessage>)
    requires ScenarioCodec(c)
    ensures GreeterRespond(c, ScenarioStart(c), 2) == Step(Pass, ScenarioFinal(c))
  {
    var io := ScenarioStart(c);
    var replied := Reply(c, io, Some(Hello));
    var delayed := SendAfter(c, replied.next, replied.next.caller.value, ReplyDelay, Some(Hello));
    assert Milliseconds(ReplyDelay) == 60000;
    var egressed := SendEgress(c, delayed.next, TestEgress, Some(Hello));
    ScenarioStore(c, egressed.next);
  }

  /** Running the handler on the test's batch succeeds and leaves the
      tracker with the counter stored, the cleared slot nil, the read-only
      slot untouched, and one entry in each effect list. */
  lemma GreeterScenarioRun(c: Codec<TestMessage>)
    requires ScenarioCodec(c)
    ensures GreeterInvoke(c, ScenarioTracker(c), c.pack(Invoke).value) == Step(Pass, ScenarioFinal(c))
  {
    ScenarioConstruction(c);
    var io := ScenarioStart(c);
    assert Get(c, io, "modified-state", Some(Proto(Counter(0)))) == Success(Some(Proto(Counter(1))));
    assert Increment(1) == 2;
    ScenarioRespond(c);
  }

  /** End to end, with any lawful codec, the handler test's batch flushes
      exactly the expected response: two mutations (`modified-state`
      modified, `deleted-state` deleted, `read-only-state` absent) and one
      outgoing message, one delayed invocation of 60000 ms and one egress
      message, each carrying the greeting. */
  lemma GreeterScenario(c: Codec<TestMessage>)
    requires Lawful(c, MessageName)
    ensures ScenarioCodec(c)
    ensures var s := GreeterInvoke(c, ScenarioTracker(c), c.pack(Invoke).value);
            && s.outcome == Pass
            && Diff(c, s.next) == Success(ExpectedResponse(c))
            && |Diff(c, s.next).value.stateMutations| == 2
            && "read-only-state" !in Diff(c, s.next).value.stateMutations
  {
    LawfulScenarioCodec(c);
    GreeterScenarioRun(c);
    ScenarioDiff(c);
  }

  /** The flush of the final tracker is the expected response. */
  lemma ScenarioDiff(c: Codec<TestMessage>)
    requires ScenarioCodec(c)
    ensures Diff(c, ScenarioFinal(c)) == Success(ExpectedResponse(c))
    ensures |ExpectedResponse(c).stateMutations| == 2
  {
    var t := ScenarioFinal(c);
    var d := Diff(c, t);
    assert !EncodeFails(c, t.states["modified-state"]);
    assert d.Success?;
    assert d.value.stateMutations.Keys == {"modified-state", "deleted-state"};
    assert d.value.stateMutations == ExpectedResponse(c).stateMutations;
  }

  /** With a lawful codec the modified state's bytes decode back to the
      counter 2, and the read-only slot still reads 1 after the other slots
      were written. */
  lemma ScenarioReadsBack(c: Codec<TestMessage>)
    requires Lawful(c, MessageName)
    ensures ScenarioCodec(c)
    ensures Unmarshall(c, DecodeOrEmpty(c, CounterBytes(c, 2)), Some(Proto(Counter(0)))) == Success(Proto(Counter(2)))
    ensures Get(c, ScenarioFinal(c), "read-only-state", Some(Proto(Counter(0)))) == Success(Some(Proto(Counter(1))))
  {
    LawfulScenarioCodec(c);
    PersistRoundTrip(c, MessageName, c.pack(Counter(2)).value);
    MarshallRoundTrip(c, MessageName, Counter(2), Counter(0));
  }

  /** An argument that does not decode as `Invoke` fails the handler before
      it touches the tracker. */
  lemma GreeterRejectsNonInvoke(c: Codec<TestMessage>, io: Tracker, msg: Payload)
    requires Unmarshall(c, msg, Some(Proto(Invoke))).Failure?
    ensures GreeterInvoke(c, io, msg).outcome.Fail?
    ensures GreeterInvoke(c, io, msg).next == io
  {
  }

  /** Without a caller the handler fails and records no effect; on the
      test's batch the error is `NoCaller`, raised by `Reply`. */
  lemma GreeterNeedsCaller(c: Codec<TestMessage>, io: Tracker, msg: Payload)
    requires io.caller.None?
    ensures GreeterInvoke(c, io, msg).outcome.Fail?
    ensures GreeterInvoke(c, io, msg).next == io
    ensures ScenarioCodec(c) && msg == c.pack(Invoke).value && io == ScenarioStart(c).(caller := None) ==>
              GreeterInvoke(c, io, msg).outcome == Fail(NoCaller)
  {
  }
}
