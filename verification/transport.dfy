/**
 * What the handlers see of Netty and of `java.util.concurrent`: a channel
 * that carries outbound messages until it is closed, a response future that
 * completes at most once, and the pending-request table that `RpcClient`
 * and its `RpcClientHandler` share.
 */
module Transport {
  import opened Wrappers
  import opened JavaLang
  import opened Protocol
  import opened RpcModel

  /** A connected Netty channel: `writeAndFlush` hands a message to the encoder while the channel is active. */
  class Channel {
    var active: bool
    /** Every message written while active, in order. */
    var outbound: seq<Message>

    constructor ()
      ensures active && outbound == []
    {
      active := true;
      outbound := [];
    }

    /** `writeAndFlush(msg)`: a write on a closed channel fails and sends nothing. */
    method WriteAndFlush(m: Message)
      modifies this
      ensures active == old(active)
      ensures outbound == old(outbound) + (if active then [m] else [])
    {
      if active {
        outbound := outbound + [m];
      }
    }

    /** `close()`: nothing more is sent. */
    method Close()
      modifies this
      ensures !active && outbound == old(outbound)
    {
      active := false;
    }
  }

  /** `CompletableFuture<RpcResponse<?>>`. */
  class ResponseFuture {
    var result: Option<RpcResponse>

    constructor ()
      ensures result.None?
    {
      result := None;
    }

    /** `complete(r)`: only the first completion takes effect. */
    method Complete(r: RpcResponse) returns (changed: bool)
      modifies this
      ensures changed <==> old(result).None?
      ensures result == if changed then Some(r) else old(result)
    {
      changed := result.None?;
      if changed {
        result := Some(r);
      }
    }
  }

  /** `pendingRequests`: request id to the future waiting for its response. */
  class PendingTable {
    var entries: map<Int64, ResponseFuture>

    constructor ()
      ensures entries == map[]
    {
      entries := map[];
    }

    /** `put(id, future)`. */
    method Put(id: Int64, future: ResponseFuture)
      modifies this
      ensures entries == old(entries)[id := future]
    {
      entries := entries[id := future];
    }

    /** `remove(id)`: the future that was pending under `id`, if any, which is no longer pending. */
    method Remove(id: Int64) returns (future: Option<ResponseFuture>)
      modifies this
      ensures future == (if id in old(entries) then Some(old(entries)[id]) else None)
      ensures entries == old(entries) - {id}
    {
      if id in entries {
        future := Some(entries[id]);
      } else {
        future := None;
      }
      entries := entries - {id};
    }
  }
}
