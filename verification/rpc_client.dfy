/**
 * `RpcClient`: one connection to one server address. It numbers its
 * requests with its own counter, parks a future for each in the pending
 * table it shares with its `RpcClientHandler`, and writes the request frame
 * to the channel.
 */
module Client {
  import opened Wrappers
  import opened JavaLang
  import opened Protocol
  import MessageTypes
  import SerializerTypes
  import opened RpcModel
  import opened Serialization
  import opened Transport
  import Encoder
  import Decoder

  // ---------------------------------------------------------------------------
  // The server address

  /**
   * `connect`'s reading of `"host:port"`: `split(":")`, element 0 as the host,
   * `Integer.parseInt` of element 1 as the port, and the port range check of
   * `new InetSocketAddress(host, port)`. A missing element is an
   * ArrayIndexOutOfBoundsException.
   */
  function SplitAddress(address: string): (r: Result<(string, Int32), Exception>)
    ensures r.Success? ==> 0 <= r.value.1 <= 65535 && ':' !in r.value.0
    ensures ':' !in address ==>
      r == Failure(Throw(ArrayIndexOutOfBoundsException, "Index 1 out of bounds for length 1"))
  {
    var parts := JavaSplit(address, ':');
    if |parts| == 0 then
      Failure(Throw(ArrayIndexOutOfBoundsException, "Index 0 out of bounds for length 0"))
    else if |parts| == 1 then
      Failure(Throw(ArrayIndexOutOfBoundsException, "Index 1 out of bounds for length 1"))
    else
      assert ':' in address;
      assert parts[0] == SplitAll(address, ':')[0];
      match ParseInt(parts[1])
      case Failure(e) => Failure(e)
      case Success(port) =>
        if 0 <= port <= 65535 then Success((parts[0], port))
        else Failure(Throw(IllegalArgumentException, "port out of range:" + IntToString(port)))
  }

  /** Writing a host and a port as `host:port` and reading it back gives both again. */
  lemma SplitAddressRoundTrip(host: string, port: nat)
    requires ':' !in host && port <= 65535
    ensures SplitAddress(host + ":" + NatToString(port)) == Success((host, port))
  {
    var digits := NatToString(port);
    JavaSplitJoin(host, digits, ':');
    ParseIntOfNatToString(port);
  }

  /** An address with nothing after its colon has no port element at all: trailing empty strings are dropped. */
  lemma EmptyPortIsMissing(host: string)
    requires ':' !in host && host != ""
    ensures SplitAddress(host + ":") ==
      Failure(Throw(ArrayIndexOutOfBoundsException, "Index 1 out of bounds for length 1"))
  {
    var s := host + ":";
    assert s[|host|] == ':';
    assert s == host + [':'] + "";
    SplitAllJoin(host, "", ':');
    assert DropTrailingEmpty([host, ""]) == DropTrailingEmpty([host]);
  }

  /** What `connect` throws for `address`, if anything; `dial` is the TCP connect of the bootstrap. */
  function ConnectError(address: string, dial: (string, Int32) -> Option<Exception>): Option<Exception>
  {
    match SplitAddress(address)
    case Failure(e) => Some(e)
    case Success(hp) => dial(hp.0, hp.1)
  }

  /** `connect` dials exactly the host and port the address was written with. */
  lemma ConnectDialsWrittenAddress(host: string, port: nat, dial: (string, Int32) -> Option<Exception>)
    requires ':' !in host && port <= 65535
    ensures ConnectError(host + ":" + NatToString(port), dial) == dial(host, port)
  {
    SplitAddressRoundTrip(host, port);
  }

  // ---------------------------------------------------------------------------
  // Request frames and request ids

  /** The frame `sendRequest` writes: a fresh header with the id, the serializer, REQUEST and the body length. */
  function RequestMessage(id: Int64, st: SerializerTypes.SerializerType, body: JavaBytes): (m: Message)
    ensures Decoder.WellFormed(m) && m.body == Some(body) && m.header.requestId == id
  {
    Message(FreshHeader().(requestId := id, serializerType := SerializerTypeByte(st),
                           messageType := MessageTypeByte(MessageTypes.REQUEST), bodyLength := |body|),
            Some(body))
  }

  /**
   * A request frame is well formed, and the decoder on the far side hands on
   * exactly that message, with a message type and a serializer byte that name
   * REQUEST and the client's serializer type.
   */
  lemma RequestFrameRoundTrips(id: Int64, st: SerializerTypes.SerializerType, body: JavaBytes, rest: seq<Byte>)
    ensures Decoder.WellFormed(RequestMessage(id, st, body))
    ensures Decoder.DecodeStep(Encoder.EncodeFrame(RequestMessage(id, st, body)) + rest) ==
      Decoder.Decoded(RequestMessage(id, st, body))
    ensures MessageTypes.ValueOf(RequestMessage(id, st, body).header.messageType) == Success(MessageTypes.REQUEST)
    ensures SerializerTypes.ValueOf(RequestMessage(id, st, body).header.serializerType) == Success(st)
    ensures RequestMessage(id, st, body).header.requestId == id
  {
    var m := RequestMessage(id, st, body);
    Decoder.RoundTrip(m, rest);
    MessageTypes.ValueOfCode(MessageTypes.REQUEST);
    SerializerTypes.ValueOfCode(st);
  }

  /** The ids `k` calls of `incrementAndGet` hand out, from a counter holding `c`. */
  function IdsFrom(c: Int64, k: nat): (ids: seq<Int64>)
    ensures |ids| == k
    decreases k
  {
    if k == 0 then [] else [IncrementLong(c)] + IdsFrom(IncrementLong(c), k - 1)
  }

  /**
   * Until the counter would pass `Long.MAX_VALUE`, the ids count up by one
   * from the counter's value: from a fresh client they are 1, 2, 3, ..., so
   * they are distinct and never the 0 of a fresh header.
   */
  lemma {:induction false} IdsCountUp(c: Int64, k: nat)
    requires c + k <= LONG_MAX
    ensures forall i :: 0 <= i < k ==> IdsFrom(c, k)[i] == c + i + 1
    decreases k
  {
    if k > 0 {
      IdsCountUp(c + 1, k - 1);
    }
  }

  lemma FreshClientIds(k: nat)
    requires k <= LONG_MAX
    ensures forall i :: 0 <= i < k ==> IdsFrom(0, k)[i] == i + 1
    ensures forall i, j :: 0 <= i < j < k ==> IdsFrom(0, k)[i] != IdsFrom(0, k)[j]
  {
    IdsCountUp(0, k);
  }

  // ---------------------------------------------------------------------------
  // The client

  class RpcClient {
    const serverAddress: string
    const serializerType: SerializerTypes.SerializerType
    /** The process-wide serializer registry. */
    const factory: SerializerFactory
    const codecs: Codecs
    /** `pendingRequests`, shared with the pipeline's `RpcClientHandler`. */
    const pending: PendingTable
    /** `channel`: null until `connect` succeeds. */
    var channel: Option<Channel>
    var requestIdGenerator: Int64

    constructor (serverAddress: string, serializerType: SerializerTypes.SerializerType,
                 factory: SerializerFactory, codecs: Codecs)
      ensures this.serverAddress == serverAddress && this.serializerType == serializerType
      ensures this.factory == factory && this.codecs == codecs
      ensures fresh(pending) && pending.entries == map[]
      ensures channel.None? && requestIdGenerator == 0
    {
      this.serverAddress := serverAddress;
      this.serializerType := serializerType;
      this.factory := factory;
      this.codecs := codecs;
      pending := new PendingTable();
      channel := None;
      requestIdGenerator := 0;
    }

    /**
     * `connect()`: on success the client holds a fresh active channel;
     * on failure it throws what address parsing or dialling threw and keeps
     * the channel it had.
     */
    method Connect(dial: (string, Int32) -> Option<Exception>) returns (thrown: Option<Exception>)
      modifies this
      ensures requestIdGenerator == old(requestIdGenerator)
      ensures thrown == ConnectError(serverAddress, dial)
      ensures thrown.None? ==>
        channel.Some? && fresh(channel.value) && channel.value.active && channel.value.outbound == []
      ensures thrown.Some? ==> channel == old(channel)
    {
      var address := SplitAddress(serverAddress);
      if address.Failure? {
        return Some(address.error);
      }
      var (host, port) := address.value;
      thrown := dial(host, port);
      if thrown.None? {
        var c := new Channel();
        channel := Some(c);
      }
    }

    /** `SerializerFactory.getSerializer(serializerType).serialize(request)`. */
    function RequestBody(request: RpcRequest): Result<JavaBytes, Exception>
      reads factory
    {
      match factory.GetSerializer(serializerType)
      case Failure(e) => Failure(e)
      case Success(s) => codecs.serializeRequest(s, request)
    }

    /** The objects `sendRequest` may change: the client, its pending table and its channel. */
    function Footprint(): set<object>
      reads this
    {
      {this, pending} + if channel.Some? then {channel.value} else {}
    }

    /**
     * `sendRequest(request)`. Without an active channel it throws
     * IllegalStateException and changes nothing. Otherwise it takes the next
     * id and parks a fresh future under it; if serialisation then throws, the
     * exception propagates and the future stays parked; if not, the request
     * frame goes out and the future is returned.
     */
    method SendRequest(request: RpcRequest) returns (future: Option<ResponseFuture>, thrown: Option<Exception>)
      modifies Footprint()
      ensures channel == old(channel)
      ensures future.Some? <==> thrown.None?
      ensures old(channel).None? || !old(channel.value.active) ==>
        && thrown == Some(Throw(IllegalStateException, "未连接到服务器"))
        && requestIdGenerator == old(requestIdGenerator)
        && pending.entries == old(pending.entries)
        && (old(channel).Some? ==>
              channel.value.active == old(channel.value.active) && channel.value.outbound == old(channel.value.outbound))
      ensures old(channel).Some? && old(channel.value.active) ==>
        && requestIdGenerator == IncrementLong(old(requestIdGenerator))
        && requestIdGenerator in pending.entries
        && fresh(pending.entries[requestIdGenerator])
        && pending.entries[requestIdGenerator].result.None?
        && pending.entries == old(pending.entries)[requestIdGenerator := pending.entries[requestIdGenerator]]
        && channel.value.active
        && (RequestBody(request).Failure? ==>
              thrown == Some(RequestBody(request).error) && channel.value.outbound == old(channel.value.outbound))
        && (RequestBody(request).Success? ==>
              && future == Some(pending.entries[requestIdGenerator])
              && channel.value.outbound ==
                 old(channel.value.outbound) + [RequestMessage(requestIdGenerator, serializerType, RequestBody(request).value)])
    {
      if channel.None? || !channel.value.active {
        return None, Some(Throw(IllegalStateException, "未连接到服务器"));
      }
      var id := IncrementLong(requestIdGenerator);
      requestIdGenerator := id;
      var f := new ResponseFuture();
      pending.Put(id, f);

      var header := new MessageHeader();
      header.SetRequestId(id);
      header.SetSerializerType(SerializerTypeByte(serializerType));
      header.SetMessageType(MessageTypeByte(MessageTypes.REQUEST));

      var body := RequestBody(request);
      if body.Failure? {
        return None, Some(body.error);
      }
      header.SetBodyLength(|body.value|);
      channel.value.WriteAndFlush(Message(header.Value(), Some(body.value)));
      future, thrown := Some(f), None;
    }

    /** `close()`: closes the channel if there is one; pending futures are left as they are. */
    method Close()
      modifies if channel.Some? then {channel.value} else {}
      ensures channel.Some? ==> !channel.value.active && channel.value.outbound == old(channel.value.outbound)
    {
      if channel.Some? {
        channel.value.Close();
      }
    }
  }
}
