/** The opaque payload codec of the binding.

    The repository's `marshall`/`unmarshall` helpers and the protobuf library
    calls beneath them are not part of this model. They enter as a `Codec`
    parameter whose four functions are otherwise unconstrained; `Marshall` and
    `Unmarshall` fix only the behaviour the serialization tests pin down (nil
    in, nil out; an `Any` passes through; a nil receiver is an error) and
    delegate everything else to that parameter. */
module Serialization {
  import opened Wrappers

  newtype byte = x: int | 0 <= x < 0x100
  type Bytes = seq<byte>

  /** A `google.protobuf.Any`: a type URL naming the message type, and the
      message's serialized bytes. */
  datatype Payload = Payload(typeUrl: string, value: Bytes)

  /** The zero `Any`, as `any.Any{}` builds it. */
  const EmptyAny := Payload("", [])

  /** A non-nil `proto.Message`: either an `Any` itself or a message of the
      application's own type `T`. */
  datatype Message<T> = AnyMessage(payload: Payload) | Proto(body: T)

  /** The foreign encoders: `pack`/`unpack` wrap an application message into
      an `Any` and back (the receiver's type selects the decoding), and
      `encodeAny`/`decodeAny` are the wire encoding of an `Any` itself. */
  datatype Codec<!T> = Codec(
    pack: T -> Result<Payload, string>,
    unpack: (Payload, T) -> Result<T, string>,
    encodeAny: Payload -> Result<Bytes, string>,
    decodeAny: Bytes -> Result<Payload, string>)

  /** Wraps a non-nil message into an `Any`. */
  function Pack<T>(c: Codec<T>, m: Message<T>): (r: Result<Payload, string>)
    ensures m.AnyMessage? ==> r == Success(m.payload)
  {
    match m
    case AnyMessage(p) => Success(p)
    case Proto(v) => c.pack(v)
  }

  /** `marshall`: a nil message marshals to nil without error, any other
      message to the `Any` that `Pack` produces. */
  function Marshall<T>(c: Codec<T>, m: Option<Message<T>>): (r: Result<Option<Payload>, string>)
    ensures m.None? ==> r == Success(None)
    ensures m.Some? ==> (r.Success? <==> Pack(c, m.value).Success?)
    ensures m.Some? && r.Success? ==> r.value == Some(Pack(c, m.value).value)
  {
    match m
    case None => Success(None)
    case Some(msg) =>
      match Pack(c, msg)
      case Success(p) => Success(Some(p))
      case Failure(e) => Failure(e)
  }

  /** `unmarshall`: decodes `p` into `receiver` and returns the receiver's new
      contents. A nil receiver is an error; an `Any` receiver becomes a copy
      of `p`; a typed receiver is handed to the codec. */
  function Unmarshall<T>(c: Codec<T>, p: Payload, receiver: Option<Message<T>>): (r: Result<Message<T>, string>)
    ensures receiver.None? ==> r.Failure?
    ensures receiver.Some? && receiver.value.AnyMessage? ==> r == Success(AnyMessage(p))
    ensures receiver.Some? && receiver.value.Proto? ==>
              (r.Success? <==> c.unpack(p, receiver.value.body).Success?)
    ensures r.Success? && receiver.Some? && receiver.value.Proto? ==>
              r.value == Proto(c.unpack(p, receiver.value.body).value)
  {
    match receiver
    case None => Failure("unmarshall into a nil receiver")
    case Some(AnyMessage(_)) => Success(AnyMessage(p))
    case Some(Proto(into)) =>
      match c.unpack(p, into)
      case Success(v) => Success(Proto(v))
      case Failure(e) => Failure(e)
  }

  /** Decodes a persisted `Any`, falling back to the empty `Any` when the
      bytes do not decode: construction of the tracker ignores the error. */
  function DecodeOrEmpty<T>(c: Codec<T>, bytes: Bytes): Payload
  {
    match c.decodeAny(bytes)
    case Success(p) => p
    case Failure(_) => EmptyAny
  }

  /** The laws a well-behaved codec obeys, given `typeName`, the message type
      name the `Any` type URL records. Packing always succeeds with a
      non-empty type URL; unpacking into a receiver of the packed message's
      type gives the message back; a successful unpack yields a message of
      the receiver's type; the wire encoding of an `Any` round-trips. */
  ghost predicate Lawful<T(!new)>(c: Codec<T>, typeName: T -> string)
  {
    && (forall v :: c.pack(v).Success? && c.pack(v).value.typeUrl != "")
    && (forall v, into :: typeName(v) == typeName(into) ==> c.unpack(c.pack(v).value, into) == Success(v))
    && (forall p, into :: c.unpack(p, into).Success? ==> typeName(c.unpack(p, into).value) == typeName(into))
    && (forall p :: c.encodeAny(p).Success? && c.decodeAny(c.encodeAny(p).value) == Success(p))
  }

  /** Marshalling a message and unmarshalling the result into a receiver of
      the same type gives the message back. */
  lemma MarshallRoundTrip<T(!new)>(c: Codec<T>, typeName: T -> string, v: T, into: T)
    requires Lawful(c, typeName)
    requires typeName(v) == typeName(into)
    ensures Marshall(c, Some(Proto(v))).Success?
    ensures Marshall(c, Some(Proto(v))).value.Some?
    ensures Unmarshall(c, Marshall(c, Some(Proto(v))).value.value, Some(Proto(into))) == Success(Proto(v))
  {
  }

  /** A persisted `Any` written with `encodeAny` is read back unchanged. */
  lemma PersistRoundTrip<T(!new)>(c: Codec<T>, typeName: T -> string, p: Payload)
    requires Lawful(c, typeName)
    ensures c.encodeAny(p).Success?
    ensures DecodeOrEmpty(c, c.encodeAny(p).value) == p
  {
  }
}
