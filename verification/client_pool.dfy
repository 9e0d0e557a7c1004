/**
 * `RpcClientPool`: at most one connected `RpcClient` per server address,
 * and no new connection once the pool holds `maxConnections` of them.
 */
module Pool {
  import opened Wrappers
  import opened JavaLang
  import SerializerTypes
  import opened Serialization
  import opened Transport
  import opened Client

  const DEFAULT_MAX_CONNECTIONS: Int32 := 10
  const DEFAULT_CONNECTION_TIMEOUT: Int32 := 5000

  class RpcClientPool {
    /** `clientMap`: server address to its client. */
    var clientMap: map<string, RpcClient>
    const serializerType: SerializerTypes.SerializerType
    const maxConnections: Int32
    /** Stored, and read nowhere. */
    const connectionTimeout: Int32
    const factory: SerializerFactory
    const codecs: Codecs

    /** The most clients the pool can ever hold: `maxConnections`, or none when that is not positive. */
    function Capacity(): nat
    {
      if maxConnections <= 0 then 0 else maxConnections
    }

    /**
     * Every pooled client talks to the address it is pooled under, with the
     * pool's serializer, and the pool never grows past its capacity.
     */
    ghost predicate Valid()
      reads this
    {
      && |clientMap| <= Capacity()
      && forall a :: a in clientMap ==>
           clientMap[a].serverAddress == a && clientMap[a].serializerType == serializerType
    }

    /** `RpcClientPool(serializerType)`: 10 connections, 5000 ms. */
    constructor Default(serializerType: SerializerTypes.SerializerType, factory: SerializerFactory, codecs: Codecs)
      ensures Valid() && clientMap == map[]
      ensures this.serializerType == serializerType && this.factory == factory && this.codecs == codecs
      ensures maxConnections == 10 && connectionTimeout == 5000
    {
      clientMap := map[];
      this.serializerType := serializerType;
      maxConnections := DEFAULT_MAX_CONNECTIONS;
      connectionTimeout := DEFAULT_CONNECTION_TIMEOUT;
      this.factory := factory;
      this.codecs := codecs;
    }

    constructor (serializerType: SerializerTypes.SerializerType, maxConnections: Int32, connectionTimeout: Int32,
                 factory: SerializerFactory, codecs: Codecs)
      ensures Valid() && clientMap == map[]
      ensures this.serializerType == serializerType && this.factory == factory && this.codecs == codecs
      ensures this.maxConnections == maxConnections && this.connectionTimeout == connectionTimeout
    {
      clientMap := map[];
      this.serializerType := serializerType;
      this.maxConnections := maxConnections;
      this.connectionTimeout := connectionTimeout;
      this.factory := factory;
      this.codecs := codecs;
    }

    /**
     * `getClient(address)`: the pooled client if there is one; otherwise,
     * below capacity, a new client that is pooled only once it has
     * connected. A full pool and a failed connection throw RuntimeException
     * and leave the pool as it was.
     */
    method GetClient(address: string, dial: (string, Int32) -> Option<Exception>)
      returns (client: Option<RpcClient>, thrown: Option<Exception>)
      requires Valid()
      modifies this
      ensures Valid()
      ensures client.Some? <==> thrown.None?
      ensures address in old(clientMap) ==>
        client == Some(old(clientMap)[address]) && clientMap == old(clientMap)
      ensures address !in old(clientMap) && |old(clientMap)| >= maxConnections ==>
        thrown == Some(Throw(RuntimeException, "连接池已满，无法创建新连接")) && clientMap == old(clientMap)
      ensures address !in old(clientMap) && |old(clientMap)| < maxConnections &&
              ConnectError(address, dial).Some? ==>
        && thrown == Some(Exception(RuntimeException, Some("创建客户端连接失败: " + address),
                                    ConnectError(address, dial)))
        && clientMap == old(clientMap)
      ensures address !in old(clientMap) && |old(clientMap)| < maxConnections &&
              ConnectError(address, dial).None? ==>
        && client.Some? && fresh(client.value) && fresh(client.value.pending)
        && client.value.channel.Some? && fresh(client.value.channel.value)
        && clientMap == old(clientMap)[address := client.value]
        && client.value.channel.Some? && client.value.channel.value.active
        && client.value.pending.entries == map[] && client.value.requestIdGenerator == 0
    {
      if address in clientMap {
        return Some(clientMap[address]), None;
      }
      if |clientMap| >= maxConnections {
        return None, Some(Throw(RuntimeException, "连接池已满，无法创建新连接"));
      }
      var c := new RpcClient(address, serializerType, factory, codecs);
      var e := c.Connect(dial);
      if e.Some? {
        return None, Some(Exception(RuntimeException, Some("创建客户端连接失败: " + address), e));
      }
      clientMap := clientMap[address := c];
      client, thrown := Some(c), None;
    }

    /** `close()`: closes every pooled client's channel, then empties the pool. */
    method Close()
      requires Valid()
      modifies this, set a | a in clientMap && clientMap[a].channel.Some? :: clientMap[a].channel.value
      ensures Valid() && clientMap == map[]
      ensures forall a :: a in old(clientMap) && old(clientMap)[a].channel.Some? ==>
        !old(clientMap)[a].channel.value.active
      ensures forall a :: a in old(clientMap) && old(clientMap)[a].channel.Some? ==>
        old(clientMap)[a].channel.value.outbound == old(clientMap[a].channel.value.outbound)
    {
      ghost var sent := map a | a in clientMap && clientMap[a].channel.Some? :: clientMap[a].channel.value.outbound;
      var remaining := clientMap.Keys;
      while remaining != {}
        invariant remaining <= clientMap.Keys
        invariant clientMap == old(clientMap)
        invariant forall a :: a in clientMap && a !in remaining && clientMap[a].channel.Some? ==>
          !clientMap[a].channel.value.active
        invariant forall a :: a in sent ==> clientMap[a].channel.Some? && clientMap[a].channel.value.outbound == sent[a]
        decreases |remaining|
      {
        var a :| a in remaining;
        clientMap[a].Close();
        remaining := remaining - {a};
      }
      clientMap := map[];
    }
  }
}
