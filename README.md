# Chat server core in Dafny

A model of the core of a small TCP chat server (client and server exchanging
length-delimited binary messages), with proofs about it:

- **Byte order** (`byte_order.dfy`): the fixed-width integer types and how
  `writeIntegral` lays a value out, as two's complement in network byte order
  (most significant byte first). Proved: the bytes decode back to the value for
  every width and signedness, the encoding is injective, byte `i` is the base-256
  digit of weight 256^(w-1-i), and the sign of a signed value is the top bit of
  the first byte.
- **ByteSpan** (`byte_span.dfy`): a non-owning pointer and size over memory the
  span does not own; the memory is a parameter of every reading operation.
  Proved: `end()` lies `getSize()` bytes past `begin()`, a subspan reads a slice
  of its original's bytes, and a subspan of a subspan is one subspan.
- **OutputByteStream** (`output_byte_stream.dfy`): an append-only buffer, a class
  whose `buffer` field is reassigned by every write, with a ghost history of the
  chunks written. Every method states the new buffer exactly. Proved: a byte span
  or byte string written as a 4-byte length and its bytes reads back as the same
  bytes followed by whatever comes next, provided it is shorter than 2^32 bytes.
  A longer one has its length truncated by the `uint32_t` cast and does not read
  back.
- **Result** (`result.dfy`): `Result<S, E>` as a class over two optional fields,
  and `Result<S, void>`. Constructors and assignments keep exactly one side held.
  When `S` and `E` are one type, the constructor or assignment used (plain value
  or `Error`-wrapped) decides the side.
- **Messages** (`messages.dfy`): the request and response kinds, with 32-bit tags.
  `serialize` appends the tag through the integer writer. Proved: a serialized
  request is recognised as itself, no tag outside the request types' tags is ever
  written, and `Ping` is four zero bytes.
- **Server** (`server.dfy`): the constructor's thread-count check and the pool
  size. Then the dispatch thread's state (connections, selector registrations,
  queued jobs) as a class whose methods are `listen`, the dispatch loop and
  `cleanupConnections`. Proved:
  - a connection is queued exactly when it is ready, idle and not a zombie, and
    each such connection is marked busy before it is queued (a ghost record
    `busyWhenQueued`, kept by the dispatcher's invariant, holds the busy flag of
    every queued connection at the moment it was queued);
  - cleanup keeps exactly the busy or live connections, in order, and
    unregisters exactly the removed ones' sockets;
  - the selector always watches the listener and exactly the live connections,
    and every queued job's connection is still listed;
  - one iteration of `run` services the listener before dispatch, so a
    connection accepted now can be dispatched in the same iteration, and runs
    cleanup on every iteration, whether or not the wait reported readiness.

## Model

| member | source | states |
|---|---|---|
| `ByteOrder.ModulusIsPow256` | src/core/common/src/OutputByteStream.cpp:13-18 | each integer type's range has 256^sizeof(T) bit patterns |
| `ByteOrder.BigEndian` | src/core/common/src/OutputByteStream.cpp:13-18 | the encoding has exactly the requested number of bytes |
| `ByteOrder.ToUnsigned` | src/core/common/src/OutputByteStream.cpp:13-18 | the two's-complement bit pattern is below the type's modulus, and its top bit is set exactly for negative values of signed types |
| `ByteOrder.NetworkOrder` | src/core/common/src/OutputByteStream.cpp:13-18 | `writeIntegral` writes exactly `sizeof(T)` bytes |
| `ByteOrder.BigEndianRoundTrip` | src/core/common/src/OutputByteStream.cpp:13-18 | reading the big-endian digits of a value that fits gives the value back |
| `ByteOrder.BigEndianDigit` | src/core/common/src/OutputByteStream.cpp:13-18 | byte `i` is the base-256 digit of weight 256^(n-1-i) |
| `ByteOrder.NetworkOrderRoundTrip` | src/core/common/src/OutputByteStream.cpp:35-73 | for all eight integer types, decoding the written bytes gives the value back |
| `ByteOrder.NetworkOrderInjective` | src/core/common/src/OutputByteStream.cpp:35-73 | two different values of one type never give the same bytes |
| `ByteOrder.NetworkOrderLayout` | src/core/common/src/OutputByteStream.cpp:13-18 | network byte order: the most significant byte comes first |
| `ByteOrder.UInt32Layout` | src/core/common/src/OutputByteStream.cpp:60-63 | the four bytes written for a `uint32_t`, listed explicitly |
| `ByteOrder.SignInFirstByte` | src/core/common/src/OutputByteStream.cpp:35-68 | for signed types, the first byte is 0x80 or more exactly when the value is negative |
| `ByteSpans.Referenced` | src/core/common/include/chat/common/ByteSpan.hpp:22-29 | the bytes in `[data, data + size)`: `size` of them, each the memory byte at its offset |
| `ByteSpans.EmptySpan` | src/core/common/include/chat/common/ByteSpan.hpp:17-20 | the default span has a null pointer and size 0 |
| `ByteSpans.MakeSpan` | src/core/common/include/chat/common/ByteSpan.hpp:22-64 | `getData` and `getSize` return what the constructor was given |
| `ByteSpans.GetData` | src/core/common/include/chat/common/ByteSpan.hpp:52-57 | `getData()` points at the first referred byte: the span's bytes are the memory slice starting there |
| `ByteSpans.GetSize` | src/core/common/include/chat/common/ByteSpan.hpp:59-64 | `getSize()` is the number of bytes the span refers to |
| `ByteSpans.Begin` | src/core/common/include/chat/common/ByteSpan.hpp:75-80 | `begin()` is the data pointer, and byte 0 of a non-empty span is the memory byte there |
| `ByteSpans.At` | src/core/common/include/chat/common/ByteSpan.hpp:66-73 | `operator[]` is the memory byte `index` places after `getData()` |
| `ByteSpans.End` | src/core/common/include/chat/common/ByteSpan.hpp:75-90 | `end()` is exactly `getSize()` bytes after `begin()` for every span, empty or not; it is null exactly when `begin()` is, and an empty span has `end() == begin()` |
| `ByteSpans.Subspan` | src/core/common/include/chat/common/ByteSpan.hpp:92-103 | the subspan has the requested size |
| `ByteSpans.MakeSpanContents` | src/core/common/include/chat/common/ByteSpan.hpp:22-29 | a span built over memory refers to exactly that slice of it |
| `ByteSpans.EmptySpanContents` | src/core/common/include/chat/common/ByteSpan.hpp:17-20 | the default span refers to no bytes |
| `ByteSpans.EndIsPastEveryByte` | src/core/common/include/chat/common/ByteSpan.hpp:82-90 | every indexed byte lies before `end()`, and `end()` does not pass the end of memory |
| `ByteSpans.SubspanAt` | src/core/common/include/chat/common/ByteSpan.hpp:92-103 | byte `j` of a subspan is byte `offset + j` of the original |
| `ByteSpans.SubspanContents` | src/core/common/include/chat/common/ByteSpan.hpp:92-103 | a subspan's bytes are the slice `[offset, offset + size)` of the original's |
| `ByteSpans.SubspanOfSubspan` | src/core/common/include/chat/common/ByteSpan.hpp:92-103 | a subspan of a subspan is the subspan at the summed offset |
| `OutputByteStreams.ConcatAppend` | src/core/common/src/OutputByteStream.cpp:22-28 | appending a chunk leaves the earlier bytes in place and adds the chunk's |
| `OutputByteStreams.ConcatSplit` | src/core/common/src/OutputByteStream.cpp:22-33 | the buffer's contents do not depend on how writes are grouped |
| `OutputByteStreams.ToUInt32` | src/core/common/src/OutputByteStream.cpp:77 | `static_cast<uint32_t>` keeps every size below 2^32 unchanged |
| `OutputByteStreams.LengthPrefixed` | src/core/common/src/OutputByteStream.cpp:75-80 | a span is written as 4 length bytes followed by its own bytes |
| `OutputByteStreams.LengthPrefixedRoundTrip` | src/core/common/src/OutputByteStream.cpp:75-85 | a written span or string shorter than 2^32 bytes reads back as its bytes, and reading stops right after them |
| `OutputByteStreams.LengthPrefixTruncates` | src/core/common/src/OutputByteStream.cpp:77 | for 2^32 bytes or more, the cast truncates the length and the field does not read back |
| `OutputByteStreams.OutputByteStream.constructor` | src/core/common/src/OutputByteStream.cpp:30-33 | the constructor is implicit; `OutputByteStream.hpp` is not part of this model; the model's new stream holds no bytes, so `getData` returns an empty buffer |
| `OutputByteStreams.OutputByteStream.Write` | src/core/common/src/OutputByteStream.cpp:22-28 | `write` appends exactly the `size` bytes at `buffer`, in order, leaving earlier bytes in place |
| `OutputByteStreams.OutputByteStream.GetData` | src/core/common/src/OutputByteStream.cpp:30-33 | `getData` is every chunk written so far, oldest first |
| `OutputByteStreams.OutputByteStream.WriteIntegral` | src/core/common/src/OutputByteStream.cpp:13-18 | one write of the value's network-order bytes |
| `OutputByteStreams.OutputByteStream.WriteInt8` | src/core/common/src/OutputByteStream.cpp:35-38 | appends the one byte of an `int8_t` |
| `OutputByteStreams.OutputByteStream.WriteUInt8` | src/core/common/src/OutputByteStream.cpp:40-43 | appends the one byte of a `uint8_t` |
| `OutputByteStreams.OutputByteStream.WriteInt16` | src/core/common/src/OutputByteStream.cpp:45-48 | appends the 2 network-order bytes of an `int16_t` |
| `OutputByteStreams.OutputByteStream.WriteUInt16` | src/core/common/src/OutputByteStream.cpp:50-53 | appends the 2 network-order bytes of a `uint16_t` |
| `OutputByteStreams.OutputByteStream.WriteInt32` | src/core/common/src/OutputByteStream.cpp:55-58 | appends the 4 network-order bytes of an `int32_t` |
| `OutputByteStreams.OutputByteStream.WriteUInt32` | src/core/common/src/OutputByteStream.cpp:60-63 | appends the 4 network-order bytes of a `uint32_t` |
| `OutputByteStreams.OutputByteStream.WriteInt64` | src/core/common/src/OutputByteStream.cpp:65-68 | appends the 8 network-order bytes of an `int64_t` |
| `OutputByteStreams.OutputByteStream.WriteUInt64` | src/core/common/src/OutputByteStream.cpp:70-73 | appends the 8 network-order bytes of a `uint64_t` |
| `OutputByteStreams.OutputByteStream.WriteSpan` | src/core/common/src/OutputByteStream.cpp:75-80 | appends the size cast to `uint32_t`, then the span's bytes, as two writes |
| `OutputByteStreams.OutputByteStream.WriteByteString` | src/core/common/src/OutputByteStream.cpp:82-85 | a byte string is written exactly as a span over its own bytes |
| `Results.Result.FromSuccess` | src/core/common/include/chat/common/Result.hpp:85-88 | constructing from a value holds that success value and no error |
| `Results.Result.FromError` | src/core/common/include/chat/common/Result.hpp:95-98 | constructing from `Error` holds the wrapped error and no success value |
| `Results.Result.AssignSuccess` | src/core/common/include/chat/common/Result.hpp:132-137 | assigning a value replaces the held side with that success value and discards any error |
| `Results.Result.AssignError` | src/core/common/include/chat/common/Result.hpp:150-155 | assigning an `Error` discards any success value and holds the new error |
| `Results.Result.IsSuccess` | src/core/common/include/chat/common/Result.hpp:162-165 | true exactly when a success value is held |
| `Results.Result.GetSuccessValue` | src/core/common/include/chat/common/Result.hpp:172-185 | the held success value; defined only when one is held |
| `Results.Result.GetErrorValue` | src/core/common/include/chat/common/Result.hpp:192-205 | the held error value; defined only when one is held |
| `Results.SameTypeSides` | src/core/common/include/chat/common/Result.hpp:85-165 | when `S` and `E` are one type, building or assigning a plain value gives a success, and building or assigning an `Error`-wrapped one gives an error |
| `Results.OptionalResult.Empty` | src/core/common/include/chat/common/Result.hpp:228 | a default `Result<S, void>` holds nothing |
| `Results.OptionalResult.FromSuccess` | src/core/common/include/chat/common/Result.hpp:235-237 | constructing from a value holds it |
| `Results.OptionalResult.AssignSuccess` | src/core/common/include/chat/common/Result.hpp:271-275 | assigning a value holds it |
| `Results.OptionalResult.IsSuccess` | src/core/common/include/chat/common/Result.hpp:282-285 | true exactly when a value is held |
| `Results.OptionalResult.GetSuccessValue` | src/core/common/include/chat/common/Result.hpp:292-305 | the held value; defined only when one is held |
| `Results.DefaultThenAssign` | src/core/common/include/chat/common/Result.hpp:228-295 | a default result is not a success; after an assignment it is, and it holds the assigned value |
| `Messages.GetType` | src/core/messages/src/Request.cpp:5-17 | a `Ping` carries the `Ping` request type; the closed datatype takes the place of the `Request(Type)` constructor. `RequestType` has one value, so no stronger contract is possible and none is proved |
| `Messages.GetResponseType` | src/core/messages/include/chat/messages/Response.hpp:56 | a `Pong` carries the `Pong` response type. `ResponseType` has one value, so no stronger contract is possible and none is proved |
| `Messages.RequestBytes` | src/core/messages/src/Request.cpp:10-13 | a request serializes to 4 bytes that decode as its type's `uint32` tag |
| `Messages.ResponseBytes` | src/core/messages/include/chat/messages/Response.hpp:25-28 | a response serializes to 4 bytes that decode as its type's `uint32` tag |
| `Messages.SerializeRequest` | src/core/messages/src/Request.cpp:10-13 | `serialize` appends the tag through the integer writer and keeps what the stream held |
| `Messages.SerializeResponse` | src/core/messages/include/chat/messages/Response.hpp:63 | `serialize` appends the response's tag and keeps what the stream held |
| `Messages.PongTagIsZero` | src/core/messages/include/chat/messages/Response.hpp:25-28 | `Pong`, the first enumerator, has tag 0, written as four zero bytes |
| `Messages.RequestRoundTrip` | src/core/messages/src/Request.cpp:10-13 | a serialized request is recognised as itself, and reading stops right after its tag |
| `Messages.OnlyRequestTagsWritten` | src/core/messages/src/Request.cpp:10-13 | `serialize` never writes the bytes of a tag that no request type has |
| `Messages.SerializePing` | src/core/messages/include/chat/messages/request/Ping.hpp:48 | serializing a ping keeps the stream's earlier bytes and appends exactly `00 00 00 00` |
| `Server.Connection.constructor` | src/core/server/src/Connection.hpp:41 | a new connection owns its socket, is idle and connected, and has no failures |
| `Server.Connection.GetSocket` | src/core/server/src/Connection.hpp:69 | the socket the connection owns |
| `Server.Connection.IsBeingHandled` | src/core/server/src/Connection.hpp:76 | the `m_beingHandled` flag |
| `Server.Connection.SetBeingHandled` | src/core/server/src/Connection.hpp:81 | marks the connection busy and changes nothing else |
| `Server.Connection.IsZombie` | src/core/server/src/Connection.hpp:90 | the zombie rule applied to the connection's liveness flag and fail count |
| `Server.NewServer` | src/core/server/src/Server.cpp:25-37 | construction succeeds exactly when at least 2 threads are allowed, and otherwise fails with an invalid argument |
| `Server.WorkerCount` | src/core/server/src/Server.cpp:70 | the pool gets `maxThreadCount - 1` threads, at least 1, because the dispatch thread counts toward the total |
| `Server.SurvivorsExactly` | src/core/server/src/Server.cpp:139-158 | a connection survives cleanup exactly when it was listed and is busy or not a zombie |
| `Server.ReapedExactly` | src/core/server/src/Server.cpp:139-158 | a connection is removed exactly when it was listed, idle and a zombie |
| `Server.SurvivorsSplit` | src/core/server/src/Server.cpp:139-158 | cleanup keeps the survivors in their original list order |
| `Server.SelectedExactly` | src/core/server/src/Server.cpp:81-96 | a connection is handed to the pool exactly when it is listed, idle, not a zombie and ready |
| `Server.SelectedAppend` | src/core/server/src/Server.cpp:81-96 | dispatch walks the list in order: a connection appended at the end is selected after all the others, if at all |
| `Server.FreshlyAccepted` | src/core/server/src/Server.cpp:83 | a new connection (idle, connected, no failures) passes the dispatch condition exactly when its zombie rule rejects that state and its socket is ready |
| `Server.SocketsPartition` | src/core/server/src/Server.cpp:139-158 | the kept and the removed connections split the sockets between them, with none shared |
| `Server.SurvivorsAreListed` | src/core/server/src/Server.cpp:139-158 | cleanup adds no connection and keeps sockets distinct |
| `Server.SurvivorsKeepDistinct` | src/core/server/src/Server.cpp:139-158 | no socket appears twice after cleanup |
| `Server.EraseReapable` | src/core/server/src/Server.cpp:141-157 | the erase-in-place loop leaves exactly the survivors and removes exactly the reaped sockets from the selector's set |
| `Server.Dispatcher.constructor` | src/core/server/src/Server.cpp:62-70 | `run` starts with no connections, only the listener registered, no jobs, and a pool of `maxThreadCount - 1` threads |
| `Server.Dispatcher.Listen` | src/core/server/src/Server.cpp:105-137 | on `Done`, registers the socket and appends a new connection for it that is idle, connected and has no failures; on any other status, changes nothing |
| `Server.Dispatcher.Dispatch` | src/core/server/src/Server.cpp:81-96 | marks busy, then queues, exactly the selected connections in list order, and touches no other flag; the loop invariant records each connection's busy flag at the moment it is queued (`busyWhenQueued`, every entry true by `Valid`), so queueing before marking would break `Valid` |
| `Server.Dispatcher.Cleanup` | src/core/server/src/Server.cpp:139-158 | the connection list becomes its survivors, the selector loses exactly the removed sockets, and the invariant is kept |
| `Server.Dispatcher.CleanupKeepsValid` | src/core/server/src/Server.cpp:139-158 | after cleanup, the selector still watches the listener and exactly the live connections, and every queued connection is still listed |
| `Server.Dispatcher.Service` | src/core/server/src/Server.cpp:74-97 | when the wait reports readiness: listen first (if the listener is ready), then dispatch over the list including any connection just accepted, with every flag and the job queue stated; otherwise nothing changes |
| `Server.Dispatcher.ListenAndDispatch` | src/core/server/src/Server.cpp:76-96 | with the listener ready: `listen`, then dispatch over the list including the connection just accepted, which is queued last and only if it is ready and its rule does not call a fresh connection a zombie |
| `Server.Dispatcher.Iterate` | src/core/server/src/Server.cpp:74-99 | the whole new state after one iteration: the serviced list `listed`, each connection's busy flag, the job queue extended by the selected connections, then the connection list reduced to `Survivors(listed)` and the selector to the old sockets plus the accepted one minus the reaped ones; cleanup runs even when the wait reports nothing |
| `Server.Dispatcher.Run` | src/core/server/src/Server.cpp:72-100 | the loop keeps the invariant across any number of iterations and never drops a queued job |

## Left out

- Threads, the stop flag and `start`/`stop`: `run`'s loop is modelled over a
  finite sequence of iterations. The selector's wait, readiness and the
  listener's `accept` result are inputs of each iteration, not computed.
- `ThreadPool` internals and `waitForCompletion`: a queued job is only recorded.
  No job runs in the model, so connections never become idle again and the queue
  only grows.
- `Connection::handle`, `receivePacket`, `sendPacket`, `receiveRequest`,
  `sendResponse` and `m_lastUsageTime`: their bodies (`Connection.cpp`) are not
  part of this model. `isZombie` is a rule over `m_connected` and `m_failCount`
  fixed per connection and left unconstrained. The constructor's initial values
  (idle, connected, no failures) are an assumption: the member declarations have
  no initialisers.
- `Ping::deserialize` and the input byte stream are not part of this model. The
  tag reader in `messages.dfy` is a reference reader, used only to state what
  serialization guarantees.
- `Ping::serialize` and `Response::serialize`: their definitions (`Ping.cpp`,
  `Response.cpp`) are not part of this model; both are modelled as `Request::serialize` is written, as the
  type tag and nothing else. `Response` declares only its `m_type`, and `Ping.hpp`
  declares no data members. The `Ping` request tag 0 is assumed; `Request.hpp` is
  not part of this model.
- The message-carrying `Ping` and the `Pong` payload are not modelled: the client
  builds a `Ping` from a message string and reads `getMessage()` from a `Pong`
  (`Client.cpp`), but `Pong.hpp` and the other `Ping` constructor are not part of
  this model. `Messages.ResponseBytes` and `Messages.SerializeResponse` describe
  only the base class's type tag.
- `utility::toNetworkByteOrder` is not part of this model. It is assumed to
  produce `sizeof(T)` raw bytes, two's complement in big-endian byte order, and
  the `<<` it feeds is assumed to reach `write` as one chunk of exactly those
  bytes, with no length prefix and no recursion into the integer overloads.
- `ByteSpan.cpp` is not part of this model: the span operations follow their
  declarations.
- `ByteSpans.Subspan`: requires `offset + size <= getSize()`. The declaration
  states no check, and a subspan past the end refers to memory the span does not
  cover.
- `Results.Result.GetSuccessValue`: the exception `std::optional::value` throws
  when no value is held is modelled as a precondition. The same holds for
  `GetErrorValue` and `Results.OptionalResult.GetSuccessValue`.
- `Server.Dispatcher.Listen`: requires the accepted socket to be registered
  nowhere yet. Every `accept` fills a freshly allocated socket, so it is distinct
  from the listener and from every live connection's socket.
- `Server.Dispatcher.Run`: states only the invariant and the growth of the job
  queue. Each iteration's effect is stated by `Server.Dispatcher.Iterate`.
- The `LOG_*` calls of the server (`Server.cpp` lines 34, 46-56, 107-136 and 145-151)
  are output only and change no state, so they are left out.
- The underlying type of `Request::Type` is assumed to be `std::uint32_t`
  (`Request.cpp` line 12 casts to it); `Request.hpp` is not part of this model.
- The non-const `getSuccessValue` and `getErrorValue` (`Result.hpp` lines
  172-175 and 192-195) return `S&` and `E&`, so a caller can change the held
  value in place. The model returns a copy; changing a held value goes through
  the assignments only.
- `OutputByteStreams.OutputByteStream.Write`: the written bytes come from memory
  disjoint from the stream's own buffer. Writing a stream into itself (`out <<
  out.getData()`) is not modelled: in the source, the length prefix's
  `push_back` or the `reserve` can reallocate the buffer that is then read.
- Moved-from `Result` objects (after `std::move`) are not modelled. A `Result`
  is always built by one of its constructors.
- `size_t` is unbounded here. Only the `uint32_t` cast of a span's size is
  modelled with wrap-around.
- The erase-in-place loop of `cleanupConnections` runs over a value copy of the
  list (`Server.EraseReapable`). `Cleanup` then stores the result, so list
  iterators and node identity are not modelled.
