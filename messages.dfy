/**
 * The request and response messages: a closed set of message kinds, each with
 * a 32-bit type tag, and `serialize`, which writes the tag through the output
 * byte stream. `Ping` is the one request and carries no payload; `Pong` is the
 * one response.
 */
module Messages {
  import opened Wrappers
  import opened ByteOrder
  import opened OutputByteStreams

  /** `Request::Type`. */
  datatype RequestType = PingRequest

  /** `Response::Type`, an `enum class` over `std::uint32_t`. */
  datatype ResponseType = PongResponse

  /** The underlying `uint32` value of a request type. */
  function RequestTag(t: RequestType): uint32 {
    match t
    case PingRequest => 0
  }

  /** The underlying `uint32` value of a response type: enumerators count from 0 in declaration order. */
  function ResponseTag(t: ResponseType): uint32 {
    match t
    case PongResponse => 0
  }

  /** The concrete requests: `Ping` declares no data members, so it has no payload. */
  datatype Request = Ping

  /** The concrete responses; the protected constructor admits no other kind. */
  datatype Response = Pong

  /**
   * `getType()`: the type each concrete request passes to the `Request(Type)`
   * constructor; the closed datatype takes the place of that constructor.
   */
  function GetType(r: Request): (t: RequestType)
    ensures r.Ping? ==> t == PingRequest
  {
    match r
    case Ping => PingRequest
  }

  /** `getResponseType()`: the type each concrete response passes to the `Response` constructor. */
  function GetResponseType(r: Response): (t: ResponseType)
    ensures r.Pong? ==> t == PongResponse
  {
    match r
    case Pong => PongResponse
  }

  /** The bytes `Request::serialize` appends: the tag and nothing else. */
  function RequestBytes(r: Request): (s: seq<byte>)
    ensures |s| == 4
    ensures DecodeIntegral(s, UInt32) == RequestTag(GetType(r)) as int
  {
    NetworkOrderRoundTrip(RequestTag(GetType(r)) as int, UInt32);
    NetworkOrder(RequestTag(GetType(r)) as int, UInt32)
  }

  /** The bytes `Response::serialize` appends: the tag and nothing else. */
  function ResponseBytes(r: Response): (s: seq<byte>)
    ensures |s| == 4
    ensures DecodeIntegral(s, UInt32) == ResponseTag(GetResponseType(r)) as int
  {
    NetworkOrderRoundTrip(ResponseTag(GetResponseType(r)) as int, UInt32);
    NetworkOrder(ResponseTag(GetResponseType(r)) as int, UInt32)
  }

  /**
   * `Request::serialize` (const): appends the type's underlying `uint32` value
   * through the integer writer; bytes already in the stream stay as they were.
   */
  method SerializeRequest(r: Request, stream: OutputByteStream)
    requires stream.Valid()
    modifies stream
    ensures stream.Valid()
    ensures stream.buffer == old(stream.buffer) + RequestBytes(r)
    ensures stream.written == old(stream.written) + [RequestBytes(r)]
  {
    stream.WriteUInt32(RequestTag(GetType(r)));
  }

  /** `Response::serialize` (const): appends the response's tag. */
  method SerializeResponse(r: Response, stream: OutputByteStream)
    requires stream.Valid()
    modifies stream
    ensures stream.Valid()
    ensures stream.buffer == old(stream.buffer) + ResponseBytes(r)
    ensures stream.written == old(stream.written) + [ResponseBytes(r)]
  {
    stream.WriteUInt32(ResponseTag(GetResponseType(r)));
  }

  /**
   * A reference tag lookup, used only to state what `serialize` guarantees:
   * read a 4-byte tag, fail on a tag no request has, and read no payload for
   * `Ping`.
   */
  ghost function DecodeRequest(s: seq<byte>): Option<(Request, seq<byte>)> {
    if |s| < 4 then None
    else if DecodeIntegral(s[..4], UInt32) == RequestTag(PingRequest) as int then Some((Ping, s[4..]))
    else None
  }

  /** `Pong` is the first enumerator and has tag 0; every response tag fits in 32 bits. */
  lemma PongTagIsZero()
    ensures ResponseTag(PongResponse) == 0
    ensures NetworkOrder(ResponseTag(PongResponse) as int, UInt32) == [0, 0, 0, 0]
  {
    UInt32Layout(0);
  }

  /** A serialized request is read back as itself, and the lookup stops right after its tag. */
  lemma RequestRoundTrip(r: Request, rest: seq<byte>)
    ensures DecodeRequest(RequestBytes(r) + rest) == Some((r, rest))
  {
    var s := RequestBytes(r) + rest;
    assert s[..4] == RequestBytes(r);
    assert s[4..] == rest;
  }

  /** `serialize` never writes a tag outside the request types' tags: every other tag's bytes differ from every request's. */
  lemma OnlyRequestTagsWritten(tag: uint32, r: Request)
    requires forall t: RequestType :: RequestTag(t) != tag
    ensures NetworkOrder(tag as int, UInt32) != RequestBytes(r)
  {
    NetworkOrderRoundTrip(tag as int, UInt32);
  }

  /** Serializing leaves what the stream already held in place and adds exactly four bytes. */
  method SerializePing(stream: OutputByteStream)
    requires stream.Valid()
    modifies stream
    ensures stream.Valid()
    ensures |stream.buffer| == |old(stream.buffer)| + 4
    ensures stream.buffer[..|old(stream.buffer)|] == old(stream.buffer)
    ensures stream.buffer[|old(stream.buffer)|..] == [0, 0, 0, 0]
  {
    SerializeRequest(Ping, stream);
    UInt32Layout(0);
  }
}
