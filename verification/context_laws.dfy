/** Properties of the effect tracker that relate several calls: what a run
    of user code can and cannot change, and how reads see earlier writes. */
module ContextLaws {
  import opened Wrappers
  import opened Serialization
  import opened Context

  /** One tracker call made by user code. `Get` is absent: it returns no
      tracker, so it cannot change one. */
  datatype Op<T> =
    | SetOp(name: string, value: Option<Message<T>>)
    | ClearOp(name: string)
    | SendOp(target: Address, message: Option<Message<T>>)
    | ReplyOp(message: Option<Message<T>>)
    | SendAfterOp(target: Address, delay: Int64, message: Option<Message<T>>)
    | SendEgressOp(egress: EgressIdentifier, message: Option<Message<T>>)

  /** The tracker after one call; the call's error, if any, is ignored. */
  function Apply<T>(c: Codec<T>, t: Tracker, op: Op<T>): Tracker
  {
    match op
    case SetOp(name, value) => Set(c, t, name, value).next
    case ClearOp(name) => Clear(c, t, name)
    case SendOp(target, message) => Send(c, t, target, message).next
    case ReplyOp(message) => Reply(c, t, message).next
    case SendAfterOp(target, delay, message) => SendAfter(c, t, target, delay, message).next
    case SendEgressOp(egress, message) => SendEgress(c, t, egress, message).next
  }

  /** The tracker after a sequence of calls, in order. */
  function Run<T>(c: Codec<T>, t: Tracker, ops: seq<Op<T>>): Tracker
    decreases |ops|
  {
    if ops == [] then t else Run(c, Apply(c, t, ops[0]), ops[1..])
  }

  /** The state names a sequence of calls writes to. */
  function Written<T>(ops: seq<Op<T>>): set<string>
    decreases |ops|
  {
    if ops == [] then {}
    else
      var rest := Written(ops[1..]);
      match ops[0]
      case SetOp(name, _) => {name} + rest
      case ClearOp(name) => {name} + rest
      case _ => rest
  }

  predicate IsPrefix<X(==)>(xs: seq<X>, ys: seq<X>)
  {
    |xs| <= |ys| && ys[..|xs|] == xs
  }

  /** A single call keeps the declared names, the identity, every slot it
      does not name, the dirty flags, and only extends the effect lists. */
  lemma ApplyFrame<T>(c: Codec<T>, t: Tracker, op: Op<T>)
    ensures var u := Apply(c, t, op);
            && u.states.Keys == t.states.Keys
            && SameIdentity(t, u)
            && IsPrefix(t.invocations, u.invocations)
            && IsPrefix(t.delayedInvocations, u.delayedInvocations)
            && IsPrefix(t.outgoingEgress, u.outgoingEgress)
            && (forall n :: n in t.states && n !in Written([op]) ==> u.states[n] == t.states[n])
            && (forall n :: n in t.states && t.states[n].updated ==> u.states[n].updated)
  {
  }

  lemma PrefixTransitive<X>(xs: seq<X>, ys: seq<X>, zs: seq<X>)
    requires IsPrefix(xs, ys) && IsPrefix(ys, zs)
    ensures IsPrefix(xs, zs)
  {
  }

  /** No run of calls adds or removes a declared state name or changes the
      identity; the effect lists only grow at the end; a slot that no call
      names is left as it was; and a dirty slot stays dirty. */
  lemma {:induction false} RunFrame<T>(c: Codec<T>, t: Tracker, ops: seq<Op<T>>)
    ensures var u := Run(c, t, ops);
            && u.states.Keys == t.states.Keys
            && SameIdentity(t, u)
            && IsPrefix(t.invocations, u.invocations)
            && IsPrefix(t.delayedInvocations, u.delayedInvocations)
            && IsPrefix(t.outgoingEgress, u.outgoingEgress)
            && (forall n :: n in t.states && n !in Written(ops) ==> u.states[n] == t.states[n])
            && (forall n :: n in t.states && t.states[n].updated ==> u.states[n].updated)
    decreases |ops|
  {
    if ops != [] {
      var mid := Apply(c, t, ops[0]);
      ApplyFrame(c, t, ops[0]);
      RunFrame(c, mid, ops[1..]);
      var u := Run(c, t, ops);
      assert u == Run(c, mid, ops[1..]);
      PrefixTransitive(t.invocations, mid.invocations, u.invocations);
      PrefixTransitive(t.delayedInvocations, mid.delayedInvocations, u.delayedInvocations);
      PrefixTransitive(t.outgoingEgress, mid.outgoingEgress, u.outgoingEgress);
      assert Written(ops) == Written([ops[0]]) + Written(ops[1..]) by {
        assert [ops[0]][1..] == [];
      }
    }
  }

  /** Writing one slot does not change what a read of another slot returns. */
  lemma GetUnaffectedBySetElsewhere<T>(c: Codec<T>, t: Tracker, name: string, value: Option<Message<T>>,
                                       other: string, receiver: Option<Message<T>>)
    requires other != name
    ensures Get(c, Set(c, t, name, value).next, other, receiver) == Get(c, t, other, receiver)
  {
  }

  /** After `Clear`, a read of that slot succeeds and leaves the receiver as
      it was: the slot holds nil. */
  lemma GetAfterClear<T>(c: Codec<T>, t: Tracker, name: string, receiver: Option<Message<T>>)
    requires name in t.states
    ensures Get(c, Clear(c, t, name), name, receiver) == Success(receiver)
  {
  }

  /** With a lawful codec, a read after a successful `Set` of a message
      returns that message to a receiver of the same type. */
  lemma GetAfterSet<T(!new)>(c: Codec<T>, typeName: T -> string, t: Tracker, name: string, v: T, into: T)
    requires Lawful(c, typeName)
    requires name in t.states
    requires typeName(v) == typeName(into)
    ensures Set(c, t, name, Some(Proto(v))).outcome == Pass
    ensures Get(c, Set(c, t, name, Some(Proto(v))).next, name, Some(Proto(into))) == Success(Some(Proto(v)))
  {
    MarshallRoundTrip(c, typeName, v, into);
  }

  /** A cleared slot is flushed as a delete. */
  lemma ClearFlushesDelete<T>(c: Codec<T>, t: Tracker, name: string)
    requires name in t.states
    ensures var d := Diff(c, Clear(c, t, name));
            d.Success? ==> name in d.value.stateMutations && d.value.stateMutations[name] == Delete
  {
  }

  /** `Send` does not deduplicate: two identical sends append two identical
      invocations. */
  lemma SendDoesNotDeduplicate<T>(c: Codec<T>, t: Tracker, target: Address, m: Message<T>)
    requires Pack(c, m).Success?
    ensures var twice := Send(c, Send(c, t, target, Some(m)).next, target, Some(m)).next;
            twice.invocations == t.invocations + [Invocation(target, Pack(c, m).value), Invocation(target, Pack(c, m).value)]
  {
  }

  /** For non-negative durations Go's truncating division agrees with
      Dafny's Euclidean one; negating the duration negates the delay. */
  lemma MillisecondsTruncates(d: Int64)
    requires d > MinInt64
    ensures d >= 0 ==> Milliseconds(d) == d / NanosPerMilli
    ensures Milliseconds(-d) == -Milliseconds(d)
  {
  }
}
