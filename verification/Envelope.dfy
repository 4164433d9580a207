/** Requests and responses, in the clear or inside an encrypted envelope, from the client to the server and back. */
module Envelope {
  import opened Base
  import Crypto

  type Bytes = Crypto.Bytes

  const REVISION: nat := 6

  datatype ErrorCode = PARSE_ERROR | INTERNAL_ERROR | VERSION_NOT_MANAGED | EMPTY_REQUEST | REJECTED

  datatype EncryptedError = NotSupported | EncRejected | EncInternal

  /** `B` is the versioned body, which this module does not look into. */
  datatype Message<B> = Message(revision: nat, error: Option<ErrorCode>, body: Option<B>)

  datatype Encrypted = Encrypted(error: Option<EncryptedError>, data: Option<Bytes>)

  datatype Messages<B> = Messages(messages: seq<Message<B>>, encrypted: Option<Encrypted>)

  /** The wire format: `parse` is `None` when decoding fails or a required field is missing. */
  datatype Codec<!B> = Codec(
    serialize: Messages<B> -> Bytes,
    serializeOne: Message<B> -> Bytes,
    parse: Bytes -> Option<Messages<B>>)

  ghost predicate CodecOk<B(!new)>(c: Codec<B>) {
    forall m :: c.parse(c.serialize(m)) == Some(m)
  }

  /** A server: its key (empty for none), the ciphers, the wire format, and what a body does to the model. */
  datatype Setup<!B, !S> = Setup(key: Bytes, p: Crypto.Primitives, codec: Codec<B>, process: (S, B) -> (S, B))

  function Failure<B>(code: ErrorCode): Message<B> {
    Message(REVISION, Some(code), None)
  }

  // What the server does, as a function of its model

  function Dispatch<B, S>(c: Setup<B, S>, s: S, m: Message<B>): (S, Message<B>) {
    match m.body
    case Some(b) => (c.process(s, b).0, Message(REVISION, None, Some(c.process(s, b).1)))
    case None => (s, Failure(VERSION_NOT_MANAGED))
  }

  /** One message after the other, each on the model that the one before has left. */
  function DispatchAll<B, S>(c: Setup<B, S>, s: S, ms: seq<Message<B>>): (S, seq<Message<B>>) {
    if ms == [] then (s, [])
    else
      var (before, reps) := DispatchAll(c, s, ms[..|ms| - 1]);
      var (after, rep) := Dispatch(c, before, ms[|ms| - 1]);
      (after, reps + [rep])
  }

  function Refusal<B>(): Messages<B> {
    Messages([Failure(REJECTED)], None)
  }

  /** The content of an envelope, handled by a server with a key. */
  function Inner<B, S>(c: Setup<B, S>, s: S, reqs: Messages<B>): (S, Messages<B>) {
    if reqs.encrypted.Some? then (s, Refusal())
    else var (after, reps) := DispatchAll(c, s, reqs.messages); (after, Messages(reps, None))
  }

  function InnerBytes<B, S>(c: Setup<B, S>, s: S, request: Bytes): (S, Bytes) {
    match c.codec.parse(request)
    case None => (s, c.codec.serializeOne(Failure(PARSE_ERROR)))
    case Some(reqs) => (Inner(c, s, reqs).0, c.codec.serialize(Inner(c, s, reqs).1))
  }

  /** An envelope, opened, handled and answered by one. */
  ghost function Unwrap<B, S>(c: Setup<B, S>, s: S, req: Encrypted, iv: Option<Bytes>): (S, Encrypted)
    requires Crypto.Usable(c.p, c.key)
  {
    match (if req.data.None? || c.key == [] then None else Crypto.Open(c.p, c.key, req.data.value))
    case None => (s, Encrypted(Some(if req.data.None? || c.key == [] then NotSupported else EncRejected), None))
    case Some(request) =>
      var (after, response) := InnerBytes(c, s, request);
      (after, if |c.key| == Crypto.KEY_SIZE && iv.Some? then Encrypted(None, Some(Crypto.Seal(c.p, c.key, iv.value, response)))
              else Encrypted(Some(EncInternal), None))
  }

  ghost function Outer<B, S>(c: Setup<B, S>, s: S, reqs: Messages<B>, iv: Option<Bytes>): (S, Messages<B>)
    requires Crypto.Usable(c.p, c.key)
  {
    if c.key != [] then
      match reqs.encrypted
      case Some(e) => (Unwrap(c, s, e, iv).0, Messages([], Some(Unwrap(c, s, e, iv).1)))
      case None => (s, Refusal())
    else if reqs.messages != [] then
      var (after, reps) := DispatchAll(c, s, reqs.messages); (after, Messages(reps, None))
    else (s, Refusal())
  }

  /** A request as it arrives, and the response as it leaves. */
  ghost function Respond<B, S>(c: Setup<B, S>, s: S, request: Bytes, iv: Option<Bytes>): (S, Bytes)
    requires Crypto.Usable(c.p, c.key)
  {
    match c.codec.parse(request)
    case None => (s, c.codec.serializeOne(Failure(PARSE_ERROR)))
    case Some(reqs) => (Outer(c, s, reqs, iv).0, c.codec.serialize(Outer(c, s, reqs, iv).1))
  }

  lemma Nothing(b: Bytes)
    ensures b + [] == b
  {}

  // The code

  class Server<!B(==), !S> {
    const c: Setup<B, S>
    var model: S
    var requestCounter: nat

    constructor (c: Setup<B, S>, model: S)
      ensures this.c == c && this.model == model && requestCounter == 0
    {
      this.c, this.model, requestCounter := c, model, 0;
    }

    /** `ProcessRequest`; `sub` marks the content of an envelope. */
    method ProcessRequest(request: Bytes, sub: bool, iv: Option<Bytes>) returns (response: Bytes)
      requires Crypto.Usable(c.p, c.key) && (iv.Some? ==> |iv.value| == Crypto.IV_SIZE) && (sub ==> c.key != [])
      modifies this
      ensures requestCounter > old(requestCounter)
      ensures (model, response) == if sub then InnerBytes(c, old(model), request) else Respond(c, old(model), request, iv)
      decreases if sub then 0 else 1
    {
      hide Crypto.Usable, Crypto.Sound, Crypto.Open, Crypto.Seal;
      hide DispatchAll, Unwrap;
      requestCounter := requestCounter + 1;
      var parsed := c.codec.parse(request);
      if parsed.None? { return c.codec.serializeOne(Failure(PARSE_ERROR)); }
      var reqs := parsed.value;
      var reps: Messages<B> := Messages([], None);
      assert reps.messages + [Failure(REJECTED)] == [Failure(REJECTED)];
      if |c.key| > 0 {
        if reqs.encrypted.Some? && sub {
          reps := reps.(messages := reps.messages + [Failure(REJECTED)]);
        } else if reqs.encrypted.Some? && !sub {
          var rep := Process(reqs.encrypted.value, iv);
          reps := reps.(encrypted := Some(rep));
        } else if reqs.encrypted.None? && sub {
          var answers := DispatchEach(reqs.messages);
          reps := reps.(messages := answers);
        } else {
          reps := reps.(messages := reps.messages + [Failure(REJECTED)]);
        }
      } else if |reqs.messages| > 0 {
        var answers := DispatchEach(reqs.messages);
        reps := reps.(messages := answers);
      } else if reqs.encrypted.Some? {
        reps := reps.(messages := reps.messages + [Failure(REJECTED)]);
      } else {
        reps := reps.(messages := reps.messages + [Failure(REJECTED)]);
      }
      response := c.codec.serialize(reps);
    }

    method DispatchEach(ms: seq<Message<B>>) returns (reps: seq<Message<B>>)
      modifies `model
      ensures (model, reps) == DispatchAll(c, old(model), ms)
    {
      reps := [];
      assert ms[..0] == [];
      for i := 0 to |ms|
        invariant (model, reps) == DispatchAll(c, old(model), ms[..i])
      {
        assert ms[..i + 1][..i] == ms[..i];
        var (after, rep) := Dispatch(c, model, ms[i]);
        model := after;
        reps := reps + [rep];
      }
      assert ms[..|ms|] == ms;
    }

    /** `ApiEncrypted::Process`. */
    method Process(req: Encrypted, iv: Option<Bytes>) returns (res: Encrypted)
      requires Crypto.Usable(c.p, c.key) && (iv.Some? ==> |iv.value| == Crypto.IV_SIZE)
      modifies this
      ensures requestCounter >= old(requestCounter)
      ensures (model, res) == Unwrap(c, old(model), req, iv)
      decreases 1, 0
    {
      hide Crypto.Usable, Crypto.Sound, Crypto.Open, Crypto.Seal;
      hide InnerBytes;
      if req.data.None? { return Encrypted(Some(NotSupported), None); }
      if |c.key| == 0 { return Encrypted(Some(NotSupported), None); }
      var ok, request := Crypto.DecAes256CbcSha512(c.p, c.key, req.data.value, []);
      if !ok { return Encrypted(Some(EncRejected), None); }
      Nothing(Crypto.Open(c.p, c.key, req.data.value).value);
      var response := ProcessRequest(request, true, iv);
      var sealed: Bytes;
      ok, sealed := Crypto.EncAes256CbcSha512(c.p, c.key, response, iv, []);
      if ok { Nothing(Crypto.Seal(c.p, c.key, iv.value, response)); }
      if !ok { return Encrypted(Some(EncInternal), None); }
      res := Encrypted(None, Some(sealed));
    }
  }

  // The client

  /** What `Request` sends for `req`. */
  ghost function Sent<B>(p: Crypto.Primitives, codec: Codec<B>, key: Bytes, req: Messages<B>, iv: Bytes): Bytes
    requires Crypto.Usable(p, key)
  {
    if |key| != Crypto.KEY_SIZE then codec.serialize(req)
    else codec.serialize(Messages([], Some(Encrypted(None, Some(Crypto.Seal(p, key, iv, codec.serialize(req)))))))
  }

  /** The first half of `Request`. */
  method Send<B>(p: Crypto.Primitives, codec: Codec<B>, key: Bytes, req: Messages<B>, iv: Option<Bytes>) returns (sent: Option<Bytes>)
    requires Crypto.Usable(p, key) && (iv.Some? ==> |iv.value| == Crypto.IV_SIZE)
    ensures sent.Some? <==> key == [] || (|key| == Crypto.KEY_SIZE && iv.Some?)
    ensures sent.Some? ==> sent.value == Sent(p, codec, key, req, if iv.Some? then iv.value else [])
  {
    hide Crypto.Usable, Crypto.Sound, Crypto.Open, Crypto.Seal;
    var request := codec.serialize(req);
    if |key| > 0 {
      var ok, sealed := Crypto.EncAes256CbcSha512(p, key, request, iv, []);
      if !ok { return None; }
      Nothing(Crypto.Seal(p, key, iv.value, request));
      request := codec.serialize(Messages([], Some(Encrypted(None, Some(sealed)))));
    }
    sent := Some(request);
  }

  /** What `Request` makes of a response; `None` when it reports an error instead. */
  ghost function Received<B>(p: Crypto.Primitives, codec: Codec<B>, key: Bytes, response: Bytes): Option<Messages<B>>
    requires Crypto.Usable(p, key)
  {
    match codec.parse(response)
    case None => None
    case Some(m) =>
      if m.encrypted.None? then Some(m)
      else if m.encrypted.value.error.Some? || m.encrypted.value.data.None? then None
      else
        match Crypto.Open(p, key, m.encrypted.value.data.value)
        case None => None
        case Some(inner) => codec.parse(inner)
  }

  /** The second half of `Request`. */
  method Receive<B(==)>(p: Crypto.Primitives, codec: Codec<B>, key: Bytes, response: Bytes) returns (res: Option<Messages<B>>)
    requires Crypto.Usable(p, key)
    ensures res == Received(p, codec, key, response)
  {
    hide Crypto.Usable, Crypto.Sound, Crypto.Open, Crypto.Seal;
    var m := codec.parse(response);
    if m.None? { return None; }
    if m.value.encrypted.None? { return m; }
    if m.value.encrypted.value.error.Some? || m.value.encrypted.value.data.None? { return None; }
    var ok, inner := Crypto.DecAes256CbcSha512(p, key, m.value.encrypted.value.data.value, []);
    if !ok { return None; }
    Nothing(Crypto.Open(p, key, m.value.encrypted.value.data.value).value);
    res := codec.parse(inner);
  }

  // Properties

  /** An exchange with a server that has the client's key, or none if the client has none. */
  ghost function Exchange<B, S>(c: Setup<B, S>, s: S, req: Messages<B>, iv: Bytes, iv': Bytes): (S, Option<Messages<B>>)
    requires Crypto.Usable(c.p, c.key)
  {
    var (after, response) := Respond(c, s, Sent(c.p, c.codec, c.key, req, iv), Some(iv'));
    (after, Received(c.p, c.codec, c.key, response))
  }

  lemma ExchangeGives<B(!new), S>(c: Setup<B, S>, s: S, ms: seq<Message<B>>, iv: Bytes, iv': Bytes)
    requires CodecOk(c.codec) && Crypto.Usable(c.p, c.key) && (c.key == [] || |c.key| == Crypto.KEY_SIZE)
    requires |iv| == |iv'| == Crypto.IV_SIZE && ms != []
    ensures Exchange(c, s, Messages(ms, None), iv, iv')
         == (DispatchAll(c, s, ms).0, Some(Messages(DispatchAll(c, s, ms).1, None)))
  {
    hide Crypto.Usable, Crypto.Sound, Crypto.Open, Crypto.Seal, DispatchAll;
    var req := Messages(ms, None);
    if c.key != [] {
      Crypto.OpenSealed(c.p, c.key, iv, c.codec.serialize(req));
      var response := InnerBytes(c, s, c.codec.serialize(req)).1;
      Crypto.OpenSealed(c.p, c.key, iv', response);
    }
  }

  /**
   Encryption is transparent: a client and a server with the same key leave the same model and the client
   decodes the same responses, in order, as without a key.
   */
  lemma EncryptionTransparent<B(!new), S>(c: Setup<B, S>, s: S, ms: seq<Message<B>>, iv: Bytes, iv': Bytes)
    requires CodecOk(c.codec) && Crypto.Usable(c.p, c.key) && |c.key| == Crypto.KEY_SIZE
    requires |iv| == |iv'| == Crypto.IV_SIZE && ms != []
    ensures Exchange(c, s, Messages(ms, None), iv, iv') == Exchange(c.(key := []), s, Messages(ms, None), iv, iv')
  {
    hide Crypto.Sound, Exchange, DispatchAll;
    ExchangeGives(c, s, ms, iv, iv');
    ExchangeGives(c.(key := []), s, ms, iv, iv');
    SameDispatch(c, [], s, ms);
  }

  lemma {:induction false} SameDispatch<B, S>(c: Setup<B, S>, key: Bytes, s: S, ms: seq<Message<B>>)
    ensures DispatchAll(c.(key := key), s, ms) == DispatchAll(c, s, ms)
  {
    if ms != [] { SameDispatch(c, key, s, ms[..|ms| - 1]); }
  }

  /** An empty list of messages is where the two differ: it is answered inside an envelope and refused outside. */
  lemma EmptyListDiffers<B(!new), S>(c: Setup<B, S>, s: S, iv: Bytes, iv': Bytes)
    requires CodecOk(c.codec) && Crypto.Usable(c.p, c.key) && |c.key| == Crypto.KEY_SIZE
    requires |iv| == |iv'| == Crypto.IV_SIZE
    ensures Exchange(c, s, Messages([], None), iv, iv') == (s, Some(Messages([], None)))
    ensures Exchange(c.(key := []), s, Messages([], None), iv, iv') == (s, Some(Refusal()))
  {
    hide Crypto.Usable, Crypto.Sound, Crypto.Open, Crypto.Seal;
    var req: Messages<B> := Messages([], None);
    Crypto.OpenSealed(c.p, c.key, iv, c.codec.serialize(req));
    Crypto.OpenSealed(c.p, c.key, iv', InnerBytes(c, s, c.codec.serialize(req)).1);
  }

  /** The messages that a server with a key obeys: those of an envelope that its key opens, one level deep. */
  ghost function Obeyed<B, S>(c: Setup<B, S>, request: Bytes): seq<Message<B>>
    requires Crypto.Usable(c.p, c.key)
  {
    match c.codec.parse(request)
    case None => []
    case Some(reqs) =>
      if reqs.encrypted.None? || reqs.encrypted.value.data.None? then []
      else
        match Crypto.Open(c.p, c.key, reqs.encrypted.value.data.value)
        case None => []
        case Some(inner) =>
          match c.codec.parse(inner)
          case None => []
          case Some(m) => if m.encrypted.Some? then [] else m.messages
  }

  /** With a key, nothing reaches the model but what comes out of an envelope; an envelope in an envelope does not. */
  lemma OnlyEnvelopesObeyed<B, S>(c: Setup<B, S>, s: S, request: Bytes, iv: Option<Bytes>)
    requires Crypto.Usable(c.p, c.key) && c.key != []
    ensures Respond(c, s, request, iv).0 == DispatchAll(c, s, Obeyed(c, request)).0
  {
    hide Crypto.Usable, Crypto.Sound, Crypto.Open, Crypto.Seal;
  }

  /** Without a key every list of messages is obeyed, and an envelope alone is not. */
  lemma ClearObeyed<B, S>(c: Setup<B, S>, s: S, request: Bytes, iv: Option<Bytes>)
    requires Crypto.Usable(c.p, c.key) && c.key == []
    ensures Respond(c, s, request, iv).0 ==
      match c.codec.parse(request) case None => s case Some(m) => DispatchAll(c, s, m.messages).0
  {}

  /** A nested envelope is answered with a refusal, itself in an envelope. */
  lemma NestedRefused<B(!new), S>(c: Setup<B, S>, s: S, inner: Messages<B>, iv: Bytes, iv': Bytes)
    requires CodecOk(c.codec) && Crypto.Usable(c.p, c.key) && |c.key| == Crypto.KEY_SIZE
    requires |iv| == |iv'| == Crypto.IV_SIZE && inner.encrypted.Some?
    ensures Exchange(c, s, inner, iv, iv') == (s, Some(Refusal()))
  {
    hide Crypto.Usable, Crypto.Sound, Crypto.Open, Crypto.Seal;
    Crypto.OpenSealed(c.p, c.key, iv, c.codec.serialize(inner));
    Crypto.OpenSealed(c.p, c.key, iv', InnerBytes(c, s, c.codec.serialize(inner)).1);
  }
}
