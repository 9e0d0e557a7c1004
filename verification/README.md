# AeroRPC core, modelled in Dafny

AeroRPC is a small Java RPC framework on Netty. A client-side dynamic proxy
turns an interface call into an `RpcRequest`. It finds a server address
through service discovery and takes a pooled `RpcClient` for that address.
The client sends the request as a binary frame and waits on a
`CompletableFuture` that the client's inbound handler completes when the
matching response frame arrives. A retry handler repeats failed attempts,
with exponential backoff. On the server, `RpcServerHandler` looks up the
service bean, validates the arguments, invokes the bean and answers with a
success or fail `RpcResponse` frame. Heartbeat frames keep idle connections
alive.

This project models that core:

- **Java semantics.** Fixed-width integers with wrap-around,
  `Integer.parseInt`, `String.split`, and exceptions as values.
- **The frame codec.** The fixed header, big-endian fields and
  partial-frame handling.
- **The message and serializer type enums**, and the serializer registry.
- **The three load-balancing strategies.** The consistent-hash ring is
  included.
- **The client.** Connection, request numbering, the pending-request table,
  the response and heartbeat handlers, the connection pool, the retry
  handler and the proxy's invocation logic.
- **The server handler.**

Each source file takes its own form in the model:

- **Classes.** Objects whose fields change in place become Dafny classes
  whose methods are proved against specification functions. These are
  `MessageHeader`, the `ByteBuf` the codec works on, channels, futures, the
  pending table, clients, the pool, the round-robin cursor and the
  consistent-hash selector cache.
- **Datatypes and functions.** Values and pure computations become these:
  frames, requests, responses, enum lookups, the hash ring and the retry
  schedule.

The frame header is 18 bytes. That is the sum 2 + 1 + 1 + 1 + 1 + 8 + 4 that
`RpcDecoder` computes for `HEADER_LENGTH`, and the number of bytes
`RpcEncoder` writes.

Several parts of the system become parameters or uninterpreted functions:

- the network;
- the byte formats of the serializers (`Serialization.Codecs`);
- MD5;
- `System.identityHashCode`;
- UUIDs;
- `Random`;
- reflection (`Server.InstanceTest` and `Server.Invoker`);
- service discovery.

An operation that throws returns `Failure(e)` or `thrown == Some(e)`
instead.

## Model

| member | source | states |
|---|---|---|
| JavaLang.WrapLong | src/main/java/com/itszt/demo/rpc/client/RpcRetryHandler.java:71 | `long` arithmetic: the exact value when it fits, otherwise the value congruent to it modulo 2^64 |
| JavaLang.WrapInt | src/main/java/com/itszt/demo/rpc/common/model/RpcResponse.java:147 | `int` arithmetic: the exact value when it fits, otherwise the value congruent to it modulo 2^32 |
| JavaLang.IncrementLong | src/main/java/com/itszt/demo/rpc/client/RpcClient.java:103 | `incrementAndGet` adds one below `Long.MAX_VALUE` and wraps to `Long.MIN_VALUE` at it |
| JavaLang.NatToString | src/main/java/com/itszt/demo/rpc/server/RpcServerHandler.java:112 | decimal rendering of a count: non-empty, digits only, no leading zero |
| JavaLang.IntToString | src/main/java/com/itszt/demo/rpc/server/RpcServerHandler.java:116 | decimal rendering of any `int`, with a minus sign for negatives |
| JavaLang.DigitsValueOfNatToString | src/main/java/com/itszt/demo/rpc/client/RpcClient.java:84 | reading back the digits of a rendered number gives the number |
| JavaLang.ParseInt | src/main/java/com/itszt/demo/rpc/client/RpcClient.java:84 | `Integer.parseInt` succeeds exactly on an optional `+`/`-` then one or more digits whose signed value lies in `int` range, with that value; otherwise NumberFormatException `For input string: "s"` |
| JavaLang.ParseIntOfNatToString | src/main/java/com/itszt/demo/rpc/client/RpcClient.java:84 | parsing a rendered port number gives the port back |
| JavaLang.ParseIntOfIntToString | src/main/java/com/itszt/demo/rpc/client/RpcClient.java:84 | parsing the decimal rendering of any `int`, `Integer.MIN_VALUE` included, gives it back |
| JavaLang.SplitAll | src/main/java/com/itszt/demo/rpc/client/RpcClient.java:82 | the pieces between separators: at least one, none containing the separator |
| JavaLang.DropTrailingEmpty | src/main/java/com/itszt/demo/rpc/client/RpcClient.java:82 | `split` keeps a prefix of the pieces, ending in a non-empty one, and drops only empty ones |
| JavaLang.SplitAllJoin | src/main/java/com/itszt/demo/rpc/client/RpcClient.java:82 | splitting `a:b` gives exactly `a` and `b` when neither holds the separator |
| JavaLang.SplitAllNoSep | src/main/java/com/itszt/demo/rpc/client/RpcClient.java:82 | a string without the separator splits into itself |
| JavaLang.JavaSplitJoin | src/main/java/com/itszt/demo/rpc/client/RpcClient.java:82-84 | `"host:port".split(":")` gives host and port back when the port is non-empty |
| JavaLang.JavaSplit | src/main/java/com/itszt/demo/rpc/client/RpcClient.java:82 | `split` on a separator-free string gives the string itself; no piece holds the separator, and the last piece is never empty |
| JavaLang.StringHashCode | src/main/java/com/itszt/demo/rpc/common/model/RpcResponse.java:147 | `String.hashCode`: 0 for the empty string, the character's code for one character |
| JavaLang.StringHashCodeAppend | src/main/java/com/itszt/demo/rpc/common/model/RpcResponse.java:147 | appending a character gives 31 times the hash so far plus its code, wrapped to `int` |
| JavaLang.ArrayHashCode | src/main/java/com/itszt/demo/rpc/common/model/RpcResponse.java:147 | `Objects.hash`: 1 for no values, 31 plus the hash for one value, wrapped to `int` |
| JavaLang.ArrayHashCodeAppend | src/main/java/com/itszt/demo/rpc/common/model/RpcResponse.java:147 | each further value gives 31 times the hash so far plus its hash, wrapped to `int` |
| BigEndian.FromToBytes | src/main/java/com/itszt/demo/rpc/codec/RpcDecoder.java:44-56 | reading back `n` big-endian bytes gives the unsigned number written |
| BigEndian.ToFromBytes | src/main/java/com/itszt/demo/rpc/codec/RpcEncoder.java:30-42 | writing back the number read from bytes gives the same bytes |
| BigEndian.JavaWidthsFit | src/main/java/com/itszt/demo/rpc/protocol/MessageHeader.java:17-47 | every `byte`, `short`, `int` and `long` field fits its wire width |
| BigEndian.DecodeEncodeSigned | src/main/java/com/itszt/demo/rpc/codec/RpcDecoder.java:44-56 | `readShort`/`readInt`/`readLong` give back what `writeShort`/`writeInt`/`writeLong` wrote, negatives included |
| BigEndian.EncodeDecodeSigned | src/main/java/com/itszt/demo/rpc/codec/RpcEncoder.java:30-42 | re-encoding a signed field read from the wire reproduces its bytes |
| MessageTypes.Code | src/main/java/com/itszt/demo/rpc/protocol/MessageType.java:11-36 | every message type code lies in 1..4 |
| MessageTypes.FirstWithCode | src/main/java/com/itszt/demo/rpc/protocol/MessageType.java:39-43 | the loop over `values()` finds a constant with the code, or none has it |
| MessageTypes.ValueOf | src/main/java/com/itszt/demo/rpc/protocol/MessageType.java:38-45 | succeeds exactly on codes 1..4 with the constant of that code; otherwise IllegalArgumentException "Unknown message type code: " + code |
| MessageTypes.CodesDistinct | src/main/java/com/itszt/demo/rpc/protocol/MessageType.java:11-26 | two message types share a code only if they are the same |
| MessageTypes.ValueOfCode | src/main/java/com/itszt/demo/rpc/protocol/MessageType.java:34-45 | `valueOf(getCode())` is the identity |
| SerializerTypes.Code | src/main/java/com/itszt/demo/rpc/common/serializer/SerializerType.java:11-36 | every serializer code lies in 1..4 |
| SerializerTypes.FirstWithCode | src/main/java/com/itszt/demo/rpc/common/serializer/SerializerType.java:39-43 | the loop over `values()` finds a constant with the code, or none has it |
| SerializerTypes.ValueOf | src/main/java/com/itszt/demo/rpc/common/serializer/SerializerType.java:38-45 | succeeds exactly on codes 1..4; otherwise IllegalArgumentException "Unknown serializer type code: " + code |
| SerializerTypes.CodesDistinct | src/main/java/com/itszt/demo/rpc/common/serializer/SerializerType.java:11-26 | two serializer types share a code only if they are the same |
| SerializerTypes.ValueOfCode | src/main/java/com/itszt/demo/rpc/common/serializer/SerializerType.java:34-45 | `valueOf(getCode())` is the identity |
| SerializerTypes.DefaultByteIsUnknown | src/main/java/com/itszt/demo/rpc/protocol/MessageHeader.java:27 | the serializer byte a fresh header holds, 0, names no serializer |
| Protocol.FreshHeader | src/main/java/com/itszt/demo/rpc/protocol/MessageHeader.java:59-62 | a new header has magic 0x10 and version 1, and every other field 0 |
| Protocol.MessageHeader.constructor | src/main/java/com/itszt/demo/rpc/protocol/MessageHeader.java:59-62 | the bean starts out holding the fresh header |
| Protocol.MessageHeader.SetMagic | src/main/java/com/itszt/demo/rpc/protocol/MessageHeader.java:68-70 | changes the magic and no other field |
| Protocol.MessageHeader.SetVersion | src/main/java/com/itszt/demo/rpc/protocol/MessageHeader.java:76-78 | changes the version and no other field |
| Protocol.MessageHeader.SetSerializerType | src/main/java/com/itszt/demo/rpc/protocol/MessageHeader.java:84-86 | changes the serializer byte and no other field |
| Protocol.MessageHeader.SetSerializerTypeOf | src/main/java/com/itszt/demo/rpc/protocol/MessageHeader.java:88-90 | stores the constant's code as the serializer byte, nothing else |
| Protocol.MessageHeader.SetMessageType | src/main/java/com/itszt/demo/rpc/protocol/MessageHeader.java:96-98 | changes the message-type byte and no other field |
| Protocol.MessageHeader.SetMessageTypeOf | src/main/java/com/itszt/demo/rpc/protocol/MessageHeader.java:100-102 | stores the constant's code as the message-type byte, nothing else |
| Protocol.MessageHeader.SetStatus | src/main/java/com/itszt/demo/rpc/protocol/MessageHeader.java:108-110 | changes the status and no other field |
| Protocol.MessageHeader.SetRequestId | src/main/java/com/itszt/demo/rpc/protocol/MessageHeader.java:116-118 | changes the request id and no other field |
| Protocol.MessageHeader.SetBodyLength | src/main/java/com/itszt/demo/rpc/protocol/MessageHeader.java:124-126 | changes the body length and no other field |
| Buffers.ByteBuf.ReadableBytes | src/main/java/com/itszt/demo/rpc/codec/RpcDecoder.java:36 | the number of bytes between the reader and writer index |
| Buffers.ByteBuf.constructor | src/main/java/com/itszt/demo/rpc/codec/RpcEncoder.java:27 | the encoder's `out` starts empty |
| Buffers.ByteBuf.Wrap | src/main/java/com/itszt/demo/rpc/codec/RpcDecoder.java:34 | the decoder's `in` holds exactly the received bytes, all readable |
| Buffers.ByteBuf.MarkReaderIndex | src/main/java/com/itszt/demo/rpc/codec/RpcDecoder.java:41 | remembers the reader index; bytes and indices otherwise unchanged |
| Buffers.ByteBuf.ResetReaderIndex | src/main/java/com/itszt/demo/rpc/codec/RpcDecoder.java:60 | moves the reader index back to the mark, nothing else |
| Buffers.ByteBuf.ReadBytes | src/main/java/com/itszt/demo/rpc/codec/RpcDecoder.java:65-66 | returns the next `n` readable bytes and consumes exactly them |
| Buffers.ByteBuf.ReadSigned | src/main/java/com/itszt/demo/rpc/codec/RpcDecoder.java:44-56 | returns the next `width` bytes as a signed big-endian number and consumes them |
| Buffers.ByteBuf.WriteBytes | src/main/java/com/itszt/demo/rpc/codec/RpcEncoder.java:44-45 | appends the bytes to what was written, growing the array if needed, reader side untouched |
| Buffers.ByteBuf.WriteSigned | src/main/java/com/itszt/demo/rpc/codec/RpcEncoder.java:30-42 | appends the big-endian two's-complement bytes of the value |
| Encoder.EncodeHeader | src/main/java/com/itszt/demo/rpc/codec/RpcEncoder.java:30-42 | the header is always 18 bytes |
| Encoder.EncodeFrame | src/main/java/com/itszt/demo/rpc/codec/RpcEncoder.java:27-47 | a frame is 18 bytes plus the body's bytes |
| Encoder.HeaderLayout | src/main/java/com/itszt/demo/rpc/codec/RpcEncoder.java:30-42 | each field sits at its fixed offset, big-endian, in wire order |
| Encoder.FrameLayout | src/main/java/com/itszt/demo/rpc/codec/RpcEncoder.java:44-46 | the frame is the header followed by the body verbatim; a null body writes only the header |
| Encoder.BodyLengthWrittenAsGiven | src/main/java/com/itszt/demo/rpc/codec/RpcEncoder.java:42 | the body-length field is written as the header says, whatever body is attached |
| Encoder.WriteLeadingFields | src/main/java/com/itszt/demo/rpc/codec/RpcEncoder.java:30-38 | appends the first six header bytes |
| Encoder.Encode | src/main/java/com/itszt/demo/rpc/codec/RpcEncoder.java:27-47 | appends exactly the frame to `out` and leaves its reader side alone |
| Decoder.EmitsExactlyWhenBodyPresent | src/main/java/com/itszt/demo/rpc/codec/RpcDecoder.java:36-62 | a frame is emitted exactly when 18 header bytes and a non-negative body length's worth of bytes are readable; nothing in the header is validated |
| Decoder.DecodedFrame | src/main/java/com/itszt/demo/rpc/codec/RpcDecoder.java:64-84 | an emitted message carries the fields read and exactly the next body-length bytes |
| Decoder.DecodeStep | src/main/java/com/itszt/demo/rpc/codec/RpcDecoder.java:34-85 | fewer than 18 readable bytes emit nothing; an emitted frame's body is exactly the next body-length bytes after the header; a negative body length fails only after a whole header |
| Decoder.ParseEncodedHeader | src/main/java/com/itszt/demo/rpc/codec/RpcDecoder.java:44-56 | reading an encoded header gives back every field |
| Decoder.ParseHeaderPrefix | src/main/java/com/itszt/demo/rpc/codec/RpcDecoder.java:44-56 | the header depends only on the first 18 bytes |
| Decoder.RoundTrip | src/main/java/com/itszt/demo/rpc/codec/RpcDecoder.java:34-85 | decoding an encoded well-formed message gives it back (a null body as empty), consumes exactly the frame and leaves what follows |
| Decoder.PartialFrameWaits | src/main/java/com/itszt/demo/rpc/codec/RpcDecoder.java:58-62 | every proper prefix of a frame makes the decoder wait and consume nothing |
| Decoder.ReadHeaderFields | src/main/java/com/itszt/demo/rpc/codec/RpcDecoder.java:43-56 | the seven reads give the parsed header and advance the reader by 18 |
| Decoder.HeaderOf | src/main/java/com/itszt/demo/rpc/codec/RpcDecoder.java:69-76 | the bean built through the setters holds exactly the fields read |
| Decoder.Decode | src/main/java/com/itszt/demo/rpc/codec/RpcDecoder.java:34-85 | the buffer moves and emits as the decoding specification says, and a negative body length throws after the header |
| Decoder.FeedOneByteAtATime | src/main/java/com/itszt/demo/rpc/codec/RpcDecoder.java:58-62 | a frame arriving one byte at a time is emitted once, after its last byte |
| RpcModel.Success | src/main/java/com/itszt/demo/rpc/common/model/RpcResponse.java:51-60 | code 200, message "Success", the id and the data, and no service name |
| RpcModel.SuccessFor | src/main/java/com/itszt/demo/rpc/common/model/RpcResponse.java:65-69 | equal to the two-argument success, with the service name set |
| RpcModel.Fail | src/main/java/com/itszt/demo/rpc/common/model/RpcResponse.java:74-80 | code 500, the message and the id, and no data |
| RpcModel.FailFor | src/main/java/com/itszt/demo/rpc/common/model/RpcResponse.java:85-89 | equal to the two-argument fail, with the service name set |
| RpcModel.Equals | src/main/java/com/itszt/demo/rpc/common/model/RpcResponse.java:134-143 | two responses are equal exactly when they agree on every field but the service name |
| RpcModel.HashCode | src/main/java/com/itszt/demo/rpc/common/model/RpcResponse.java:145-148 | `Objects.hash` of id, code, message and data; its partner `RpcModel.EqualsImpliesSameHash` proves it consistent with `equals` |
| RpcModel.EqualsImpliesSameHash | src/main/java/com/itszt/demo/rpc/common/model/RpcResponse.java:134-148 | equal responses have equal hash codes, service names aside |
| RpcModel.SuccessNeverEqualsFail | src/main/java/com/itszt/demo/rpc/common/model/RpcResponse.java:41-46 | a success and a fail response are never equal |
| Serialization.InitialRegistry | src/main/java/com/itszt/demo/rpc/common/serializer/SerializerFactory.java:16-21 | the registry starts with exactly JDK and JSON |
| Serialization.SerializerFactory.constructor | src/main/java/com/itszt/demo/rpc/common/serializer/SerializerFactory.java:14-21 | the factory starts with the initial registry |
| Serialization.SerializerFactory.GetSerializer | src/main/java/com/itszt/demo/rpc/common/serializer/SerializerFactory.java:29-35 | succeeds exactly for registered types, with the registered serializer; otherwise IllegalArgumentException naming the type |
| Serialization.SerializerFactory.RegisterSerializer | src/main/java/com/itszt/demo/rpc/common/serializer/SerializerFactory.java:43-45 | later lookups of the type give the new serializer; other types are unaffected |
| Serialization.UnregisteredByDefault | src/main/java/com/itszt/demo/rpc/common/serializer/SerializerFactory.java:16-21 | PROTOBUF and HESSIAN are not available out of the box |
| LoadBalancing.NextCursor | src/main/java/com/itszt/demo/rpc/loadbalance/impl/RoundRobinLoadBalance.java:29-32 | the next cursor is a valid index |
| LoadBalancing.Picks | src/main/java/com/itszt/demo/rpc/loadbalance/impl/RoundRobinLoadBalance.java:25-34 | `k` consecutive picks give `k` valid indices |
| LoadBalancing.NextCursorSteps | src/main/java/com/itszt/demo/rpc/loadbalance/impl/RoundRobinLoadBalance.java:31 | the cursor advances by one and wraps to 0 after the last index |
| LoadBalancing.PicksAt | src/main/java/com/itszt/demo/rpc/loadbalance/impl/RoundRobinLoadBalance.java:29-34 | pick `j` of a run is `j + 1` places after the starting cursor, round the ring |
| LoadBalancing.RoundRobinCoversAll | src/main/java/com/itszt/demo/rpc/loadbalance/impl/RoundRobinLoadBalance.java:25-34 | `n` consecutive picks over `n` addresses hit every index exactly once, and pick `n + 1` repeats the first |
| LoadBalancing.FirstPickIsIndexOne | src/main/java/com/itszt/demo/rpc/loadbalance/impl/RoundRobinLoadBalance.java:14 | from a fresh balancer the first multi-address pick is index 1 |
| LoadBalancing.RoundRobinLoadBalance.constructor | src/main/java/com/itszt/demo/rpc/loadbalance/impl/RoundRobinLoadBalance.java:14 | the cursor starts at 0 |
| LoadBalancing.RoundRobinLoadBalance.Select | src/main/java/com/itszt/demo/rpc/loadbalance/impl/RoundRobinLoadBalance.java:17-35 | null or empty gives null; one address is returned as is; otherwise the cursor advances and the address at it is returned |
| LoadBalancing.RandomSelect | src/main/java/com/itszt/demo/rpc/loadbalance/impl/RandomLoadBalance.java:17-25 | null or empty gives null; one address is returned; otherwise some address of the list |
| ConsistentHashing.Reverse | src/main/java/com/itszt/demo/rpc/loadbalance/impl/ConsistentHashLoadBalance.java:116-119 | the digest bytes in reverse order, for the little-endian read |
| ConsistentHashing.Hash | src/main/java/com/itszt/demo/rpc/loadbalance/impl/ConsistentHashLoadBalance.java:115-120 | a 32-bit unsigned point, digest bytes `4k..4k+3` read little-endian |
| ConsistentHashing.FromBytesOfFour | src/main/java/com/itszt/demo/rpc/loadbalance/impl/ConsistentHashLoadBalance.java:116-119 | the shifts and ors of `hash` are the big-endian value of the reversed bytes |
| ConsistentHashing.AddPointsShape | src/main/java/com/itszt/demo/rpc/loadbalance/impl/ConsistentHashLoadBalance.java:69-72 | a digest's puts keep earlier points and add its four points owned by the address |
| ConsistentHashing.AddReplicasShape | src/main/java/com/itszt/demo/rpc/loadbalance/impl/ConsistentHashLoadBalance.java:67-73 | an address's digests add only its own 32-bit points, all of them present |
| ConsistentHashing.RingShape | src/main/java/com/itszt/demo/rpc/loadbalance/impl/ConsistentHashLoadBalance.java:66-74 | every ring point is a 32-bit hash owned by a listed address; with replicas it is non-empty |
| ConsistentHashing.Ring | src/main/java/com/itszt/demo/rpc/loadbalance/impl/ConsistentHashLoadBalance.java:62-75 | with no digests per address the ring is empty, whatever the addresses |
| ConsistentHashing.DigestsPerAddress | src/main/java/com/itszt/demo/rpc/loadbalance/impl/ConsistentHashLoadBalance.java:67 | `replicaNumber / 4` rounded down for non-negative counts; below 4, including negative counts, no digests at all |
| ConsistentHashing.LastAddressWins | src/main/java/com/itszt/demo/rpc/loadbalance/impl/ConsistentHashLoadBalance.java:71 | on a point collision the later address owns the point |
| ConsistentHashing.HasLeast | src/main/java/com/itszt/demo/rpc/loadbalance/impl/ConsistentHashLoadBalance.java:90 | a non-empty ring has a first entry |
| ConsistentHashing.Least | src/main/java/com/itszt/demo/rpc/loadbalance/impl/ConsistentHashLoadBalance.java:90 | `firstEntry` is the smallest point |
| ConsistentHashing.ChosenIsUnique | src/main/java/com/itszt/demo/rpc/loadbalance/impl/ConsistentHashLoadBalance.java:87-91 | the ceiling-or-first lookup picks at most one point |
| ConsistentHashing.ConsistentHashSelector.constructor | src/main/java/com/itszt/demo/rpc/loadbalance/impl/ConsistentHashLoadBalance.java:62-75 | the nested loops build exactly the ring of `replicaNumber / 4` digests per address |
| ConsistentHashing.ConsistentHashSelector.Select | src/main/java/com/itszt/demo/rpc/loadbalance/impl/ConsistentHashLoadBalance.java:83-93 | the owner of the ceiling point of the key's hash, or of the smallest point; NullPointerException exactly on an empty ring |
| ConsistentHashing.ConsistentHashLoadBalance.constructor | src/main/java/com/itszt/demo/rpc/loadbalance/impl/ConsistentHashLoadBalance.java:19 | the selector cache starts empty |
| ConsistentHashing.ConsistentHashLoadBalance.SelectorFor | src/main/java/com/itszt/demo/rpc/loadbalance/impl/ConsistentHashLoadBalance.java:34-39 | reuses the cached selector for the same list identity, otherwise caches a new 160-replica one; other keys untouched |
| ConsistentHashing.ConsistentHashLoadBalance.Select | src/main/java/com/itszt/demo/rpc/loadbalance/impl/ConsistentHashLoadBalance.java:22-43 | null, empty and single lists as the other strategies; otherwise the ring choice for the request id of the selector cached under `interface.method`, reused for the same list identity and rebuilt from this list otherwise, so an address of the list it was built from |
| Transport.Channel.constructor | src/main/java/com/itszt/demo/rpc/client/RpcClient.java:86-88 | a new channel is active and has sent nothing |
| Transport.Channel.WriteAndFlush | src/main/java/com/itszt/demo/rpc/client/RpcClient.java:124 | an active channel sends the message after all earlier ones; a closed one sends nothing |
| Transport.Channel.Close | src/main/java/com/itszt/demo/rpc/client/RpcClient.java:131-134 | the channel is inactive and what it sent is unchanged |
| Transport.ResponseFuture.constructor | src/main/java/com/itszt/demo/rpc/client/RpcClient.java:105 | a new future is not completed |
| Transport.ResponseFuture.Complete | src/main/java/com/itszt/demo/rpc/client/RpcClientHandler.java:62 | only the first completion takes effect, and it reports whether it did |
| Transport.PendingTable.constructor | src/main/java/com/itszt/demo/rpc/client/RpcClient.java:47 | the table starts empty |
| Transport.PendingTable.Put | src/main/java/com/itszt/demo/rpc/client/RpcClient.java:106 | the id now maps to the future; other ids unchanged |
| Transport.PendingTable.Remove | src/main/java/com/itszt/demo/rpc/client/RpcClientHandler.java:44 | returns the future pending under the id, if any, and the id is no longer pending |
| Client.SplitAddress | src/main/java/com/itszt/demo/rpc/client/RpcClient.java:82-86 | a parsed address has a colon-free host and a port in 0..65535; without a colon it is ArrayIndexOutOfBoundsException "Index 1 out of bounds for length 1" |
| Client.SplitAddressRoundTrip | src/main/java/com/itszt/demo/rpc/client/RpcClient.java:82-86 | `host:port` parses back to the host and the port |
| Client.EmptyPortIsMissing | src/main/java/com/itszt/demo/rpc/client/RpcClient.java:82-84 | `host:` has no port element, so reading it is an index failure, not a parse failure |
| Client.ConnectDialsWrittenAddress | src/main/java/com/itszt/demo/rpc/client/RpcClient.java:82-86 | connect dials exactly the host and port the address names |
| Client.RequestFrameRoundTrips | src/main/java/com/itszt/demo/rpc/client/RpcClient.java:112-124 | a request frame is well formed and decodes on the server to itself, as REQUEST with the client's serializer and id |
| Client.RequestMessage | src/main/java/com/itszt/demo/rpc/client/RpcClient.java:112-124 | the request frame is well formed, carries the body and the request's id |
| Client.IdsFrom | src/main/java/com/itszt/demo/rpc/client/RpcClient.java:103 | `k` increments hand out `k` ids |
| Client.IdsCountUp | src/main/java/com/itszt/demo/rpc/client/RpcClient.java:103 | below `Long.MAX_VALUE` the ids are the counter plus 1, 2, 3, ... |
| Client.FreshClientIds | src/main/java/com/itszt/demo/rpc/client/RpcClient.java:46 | a fresh client's ids are 1, 2, 3, ...: distinct and never 0 |
| Client.RpcClient.constructor | src/main/java/com/itszt/demo/rpc/client/RpcClient.java:49-75 | no channel, counter 0, and an empty pending table of its own |
| Client.RpcClient.Connect | src/main/java/com/itszt/demo/rpc/client/RpcClient.java:80-93 | throws what parsing or dialling throws and keeps the old channel; otherwise holds a new active channel |
| Client.RpcClient.SendRequest | src/main/java/com/itszt/demo/rpc/client/RpcClient.java:98-126 | without an active channel IllegalStateException "未连接到服务器" and nothing changes: the id counter, the pending table, and the channel's state and outbound frames stay as they were; otherwise the next id, a new pending future under it, and the request frame sent, or the serializer's exception with the future left pending |
| Client.RpcClient.Close | src/main/java/com/itszt/demo/rpc/client/RpcClient.java:131-137 | the channel, if any, is closed and pending futures are untouched |
| ClientHandlers.ReadResponse | src/main/java/com/itszt/demo/rpc/client/RpcClientHandler.java:47-59 | a read response names a registered serializer, and has a code whenever it names a service; an unknown serializer byte is that failure |
| ClientHandlers.RpcClientHandler.constructor | src/main/java/com/itszt/demo/rpc/client/RpcClientHandler.java:27-29 | shares the given pending table |
| ClientHandlers.RpcClientHandler.ChannelRead | src/main/java/com/itszt/demo/rpc/client/RpcClientHandler.java:32-71 | non-responses change nothing; a response removes its id, completes that future with the response read, or on a read failure closes the channel and leaves the future incomplete |
| ClientHandlers.DeliverTwice | src/main/java/com/itszt/demo/rpc/client/RpcClientHandler.java:43-63 | a duplicate response is ignored: the future is completed at most once |
| ClientHandlers.HeartbeatFrame | src/main/java/com/itszt/demo/rpc/client/RpcClientHeartbeatHandler.java:30-36 | a heartbeat request is a bare 18-byte frame that decodes as HEARTBEAT_REQUEST with an empty body |
| ClientHandlers.RpcClientHeartbeatHandler.constructor | src/main/java/com/itszt/demo/rpc/client/RpcClientHeartbeatHandler.java:22 | the handler's own counter starts at 0 |
| ClientHandlers.RpcClientHeartbeatHandler.UserEventTriggered | src/main/java/com/itszt/demo/rpc/client/RpcClientHeartbeatHandler.java:24-42 | writer idle sends one heartbeat under the next id; other idle states do nothing; other events are passed on |
| Pool.RpcClientPool.Default | src/main/java/com/itszt/demo/rpc/client/RpcClientPool.java:32-34 | 10 connections and 5000 ms, empty pool |
| Pool.RpcClientPool.constructor | src/main/java/com/itszt/demo/rpc/client/RpcClientPool.java:36-40 | the given settings, empty pool |
| Pool.RpcClientPool.GetClient | src/main/java/com/itszt/demo/rpc/client/RpcClientPool.java:48-81 | returns the pooled client; a full pool throws "连接池已满，无法创建新连接"; a failed connect throws "创建客户端连接失败: " + address caused by the failure; otherwise pools a new connected client; the pool never exceeds its capacity and keys match addresses |
| Pool.RpcClientPool.Close | src/main/java/com/itszt/demo/rpc/client/RpcClientPool.java:86-98 | every pooled channel is closed with the frames it had already sent left as they were, and the pool is empty |
| Retry.PowerOfTwoAsLong | src/main/java/com/itszt/demo/rpc/client/RpcRetryHandler.java:71 | `(long) Math.pow(2, e)` is exact up to 2^62 and saturates at `Long.MAX_VALUE` from 2^63 |
| Retry.RpcRetryHandler.Default | src/main/java/com/itszt/demo/rpc/client/RpcRetryHandler.java:31-33 | three retries, 1000 ms, backoff on |
| Retry.RpcRetryHandler.constructor | src/main/java/com/itszt/demo/rpc/client/RpcRetryHandler.java:35-39 | the given settings |
| Retry.RpcRetryHandler.RunFrom | src/main/java/com/itszt/demo/rpc/client/RpcRetryHandler.java:53-84 | a run from count `k` first calls the operation with `k`; an interrupt ends it only during a positive wait |
| Retry.RpcRetryHandler.Execute | src/main/java/com/itszt/demo/rpc/client/RpcRetryHandler.java:49-88 | the loop's calls, waits and ending are exactly the retry specification's |
| Retry.RpcRetryHandler.Spec | src/main/java/com/itszt/demo/rpc/client/RpcRetryHandler.java:49-88 | the operation is called exactly when `maxRetries` is not negative, first with count 0 and at most `maxRetries + 1` times |
| Retry.RpcRetryHandler.Interval | src/main/java/com/itszt/demo/rpc/client/RpcRetryHandler.java:67-72 | without backoff, and before the first retry, the wait is the configured interval; a zero interval waits zero |
| Retry.RpcRetryHandler.ZeroIntervalIgnoresInterrupts | src/main/java/com/itszt/demo/rpc/client/RpcRetryHandler.java:76-81 | with a zero interval a run is the same whether or not the thread is interrupted, since a zero sleep never throws |
| Retry.RpcRetryHandler.RunFromShape | src/main/java/com/itszt/demo/rpc/client/RpcRetryHandler.java:53-82 | calls go `k, k+1, ...` up to `maxRetries`, each retry `j` preceded by a wait of `Interval(j)`, and every call but the last threw |
| Retry.RpcRetryHandler.RunFromEnd | src/main/java/com/itszt/demo/rpc/client/RpcRetryHandler.java:53-87 | a run ends with the first returned value, the last exception once retries are used up, or the interruption failure of a positive wait |
| Retry.RpcRetryHandler.AlwaysFailing | src/main/java/com/itszt/demo/rpc/client/RpcRetryHandler.java:58-65 | an always-failing operation is called `maxRetries + 1` times and its last exception is rethrown |
| Retry.RpcRetryHandler.NegativeRetriesThrowNull | src/main/java/com/itszt/demo/rpc/client/RpcRetryHandler.java:50-53 | negative `maxRetries` never calls the operation and ends in NullPointerException |
| Retry.RpcRetryHandler.BackoffDoubles | src/main/java/com/itszt/demo/rpc/client/RpcRetryHandler.java:68-72 | with backoff each wait doubles the previous one while it fits |
| Retry.DefaultSchedule | src/main/java/com/itszt/demo/rpc/client/RpcRetryHandler.java:31-33 | the defaults call with counts 0..3, wait 1000, 2000 and 4000 ms, and rethrow the fourth exception |
| Retry.BackoffWrapsNegative | src/main/java/com/itszt/demo/rpc/client/RpcRetryHandler.java:71-78 | the uncapped backoff wraps to a negative wait before retry 55, which an interrupt cannot cut short |
| Proxy.RequestAt | src/main/java/com/itszt/demo/rpc/client/RpcClientProxy.java:81-82 | attempt 0 sends the request as created; each retry only replaces the request id, with a fresh one |
| Proxy.CreateRequest | src/main/java/com/itszt/demo/rpc/client/RpcClientProxy.java:116-126 | the request carries the drawn id, the arguments and the parameter types, and the server's key for it is the declaring interface, version and group |
| Proxy.CreatedRequestAtServer | src/main/java/com/itszt/demo/rpc/server/RpcServerHandler.java:108-113 | a created request for a method without arguments (null `args`) fails the server's arity check with NullPointerException; one with matching arguments reaches the registered bean |
| Proxy.LookupRequest | src/main/java/com/itszt/demo/rpc/client/RpcClientProxy.java:72-82 | discovery is asked about the shared request before the retry replaces its id: attempts 0 and 1 look up under the creation id |
| Proxy.LookupIdIsEarlier | src/main/java/com/itszt/demo/rpc/client/RpcClientProxy.java:72-82 | the id discovery sees is the creation id or the fresh id of an earlier retry |
| Proxy.LookupSeesLastSentRequest | src/main/java/com/itszt/demo/rpc/client/RpcClientProxy.java:72-88 | after a retry got past `getClient`, the next attempt's discovery sees exactly the request that retry sent |
| Proxy.AttemptOutcome | src/main/java/com/itszt/demo/rpc/client/RpcClientProxy.java:70-100 | an attempt returns exactly when every stage succeeded and the code is 200, and then returns the data; no address throws "服务不可用: " with the interface name |
| Proxy.OtherCodeThrows | src/main/java/com/itszt/demo/rpc/client/RpcClientProxy.java:93-96 | any code other than 200 throws "调用失败: " with the response's message |
| Proxy.FailResponseThrows | src/main/java/com/itszt/demo/rpc/client/RpcClientProxy.java:93-96 | a server's fail response becomes a RuntimeException |
| Proxy.RpcClientProxy.Default | src/main/java/com/itszt/demo/rpc/client/RpcClientProxy.java:33-39 | 5000 ms, empty version and group, default retry handler |
| Proxy.RpcClientProxy.constructor | src/main/java/com/itszt/demo/rpc/client/RpcClientProxy.java:41-48 | the given settings |
| Proxy.RpcClientProxy.Invoke | src/main/java/com/itszt/demo/rpc/client/RpcClientProxy.java:59-107 | `Object` methods run locally; every other call is the retry handler's run of the attempt callback, with discovery asked about the request as it stands before the retry's id change, its ending passed to the caller |
| Proxy.UnavailableServiceFailsAfterFourCalls | src/main/java/com/itszt/demo/rpc/client/RpcClientProxy.java:70-75 | with defaults, an undiscoverable service is tried four times and fails with "服务不可用: " and the interface name |
| Proxy.Attempt | src/main/java/com/itszt/demo/rpc/client/RpcClientProxy.java:71-100 | one attempt against the real pool and client ends as the attempt specification says of what it met. `getClient`'s failure is fixed by the pool's prior state: a pooled address never fails, a full pool gives "连接池已满，无法创建新连接", and a failed connect gives "创建客户端连接失败: " with the cause. `sendRequest`'s failure is fixed by the client: no active channel gives "未连接到服务器", and otherwise it is the serializer's exception. A retry that got past `getClient` replaces the shared request's id before sending. A request that went out is pending on the pooled client under the frame's id. The pool is the same map afterwards, except that a newly connected client is added under the address; the attempt may change only the pool, the client pooled under the address, and that client's pending table and channel |
| Server.FirstMismatch | src/main/java/com/itszt/demo/rpc/server/RpcServerHandler.java:114-119 | the first argument that is null or not an instance of its type, with every earlier one accepted; or all are accepted |
| Server.Handle | src/main/java/com/itszt/demo/rpc/server/RpcServerHandler.java:95-130 | a request that passes every check invokes the bean under its key and returns its outcome; any other request fails |
| Server.InvokedExactlyWhenDispatchable | src/main/java/com/itszt/demo/rpc/server/RpcServerHandler.java:95-130 | the bean is invoked exactly when the key exists, the arity matches and every argument is accepted; otherwise the failure does not depend on the bean |
| Server.HandleRequest | src/main/java/com/itszt/demo/rpc/server/RpcServerHandler.java:95-130 | the validation loop decides as the dispatch specification: missing service names all three key parts, arity mismatch, first bad argument |
| Server.ResponseFor | src/main/java/com/itszt/demo/rpc/server/RpcServerHandler.java:65-76 | success gives code 200 with the result; an exception gives code 500 with its message; both carry the request id and service name |
| Server.RpcServerHandler.constructor | src/main/java/com/itszt/demo/rpc/server/RpcServerHandler.java:29-31 | the handler keeps the given service map |
| Server.RpcServerHandler.Serve | src/main/java/com/itszt/demo/rpc/server/RpcServerHandler.java:54-89 | the response frame mirrors the request's id and serializer byte, is RESPONSE and well formed; an unknown serializer byte fails |
| Server.RpcServerHandler.ChannelRead | src/main/java/com/itszt/demo/rpc/server/RpcServerHandler.java:34-90 | heartbeats are echoed; requests get their response frame, or the channel is closed on a failure outside dispatch; other types change nothing |
| Server.HeartbeatEcho | src/main/java/com/itszt/demo/rpc/server/RpcServerHandler.java:40-51 | the heartbeat answer keeps the id and is a bare 18-byte HEARTBEAT_RESPONSE frame |
| Server.ClientReadsServerResponse | src/main/java/com/itszt/demo/rpc/server/RpcServerHandler.java:79-88 | when serialisation round-trips, the client reads back exactly the response the server built, under the same id |

## Left out

- Concurrency: `AtomicInteger`/`AtomicLong` compare-and-set loops, `ConcurrentHashMap` and the pool's double-checked `synchronized` block are sequential updates; interleavings of concurrent callers are not modelled.
- Netty itself: the event loop, bootstrap options, `IdleStateHandler` timing (5 s writer idle), `shutdownGracefully`, and the failed future of a write on a closed channel (the model drops the write).
- Client.RpcClient.Connect: the `isSuccess()`-false branch is not modelled, since `sync()` already rethrows a failed connection.
- The byte formats of `JdkSerializer` and `JsonSerializer`: serializers are tokens and their conversions are the uninterpreted `Codecs`.
- MD5, `System.identityHashCode`, `UUID.randomUUID()` and `Random.nextInt` are parameters.
- Reflection: `Class.isInstance`, `getMethod`/`invoke`, including `InvocationTargetException` wrapping, is the `Invoker` parameter; `Object` methods on the proxy are only marked as run locally.
- Service discovery, ZooKeeper registration and `RpcServer` bootstrap: the attempt takes the discovered address as an input. `ZkServiceRegistry.java`, `RpcServer.java` and `bio/Server.java` are not part of this model.
- `RpcMonitor` counters and all logging; only the null `code` unboxing in the client's monitor branch is kept, because it throws.
- Waiting: `future.get(timeout)` is an input outcome, and retry sleeps are recorded as waits rather than performed.
- Retry.RpcRetryHandler.Execute: the retry count is an unbounded integer, so the `int` wrap of `retryCount++` when `maxRetries` is `Integer.MAX_VALUE` is not modelled.
- JDK helpful NullPointerException messages: every NullPointerException carries a null message, as with helpful messages off.
- Null strings inside requests and responses (the `requestId` of both, and the interface, method, version and group names) and a null `parameterTypes` array are not modelled; `Objects.equals` and `Objects.hash` on a null `requestId` are therefore left out; `parameters` may be null, as may each element.
- JavaLang.ParseInt: only the ASCII digits `0`-`9` count as digits; `Character.digit` also accepts the other Unicode decimal digits (Arabic-Indic, full-width and so on), so an address such as `h:８０８０` that Java parses is rejected here.
- Characters are Dafny characters, not UTF-16 code units; `String.hashCode` and `split` work on those.
- A message body is declared `Object` in `RpcMessage` and cast to `byte[]` by `RpcEncoder`, so a body of any other type would throw ClassCastException there. The model types the body as optional bytes. Every producer of a message in the modelled code sets a byte array, so that exception cannot arise here.
- `getProxy`, `RpcResponse.toString` and plain getters are not modelled; getters are field accesses.
