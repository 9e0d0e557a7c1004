/**
 * `RpcClientProxy`: turns a call on a service interface into an RPC. Each
 * attempt looks the service up, takes a pooled client, sends the request and
 * waits for the response; the retry handler repeats failed attempts, and a
 * retry sends the request under a fresh id.
 */
module Proxy {
  import opened Wrappers
  import opened JavaLang
  import opened RpcModel
  import opened Transport
  import opened Client
  import opened Pool
  import opened Retry
  import Server

  const DEFAULT_TIMEOUT: Int64 := 5000
  const OBJECT_CLASS: string := "java.lang.Object"

  /** A `java.lang.reflect.Method`: where it is declared, its name and its parameter types. */
  datatype Method = Method(declaringClass: string, name: string, parameterTypes: seq<JavaClass>)

  /**
   * `createRequest(method, args)`, with `uuid` the id `UUID.randomUUID()` gave:
   * the server looks the request up under the declaring interface and the
   * proxy's version and group.
   */
  function CreateRequest(uuid: string, m: Method, args: Option<seq<Option<Value>>>, version: string, group: string)
    : (r: RpcRequest)
    ensures Server.ServiceKey(r) == m.declaringClass + ":" + version + ":" + group
    ensures r.requestId == uuid && r.parameters == args && r.parameterTypes == m.parameterTypes
  {
    RpcRequest(uuid, m.declaringClass, m.name, m.parameterTypes, args, version, group)
  }

  /**
   * What the server's `handleRequest` makes of a request the proxy created,
   * when it arrives as it was sent: a method without arguments (a null `args`)
   * fails the arity check with NullPointerException, and a call whose
   * arguments match the declared parameter types reaches the bean registered
   * under the interface, version and group.
   */
  lemma CreatedRequestAtServer(uuid: string, m: Method, args: Option<seq<Option<Value>>>, version: string,
                               group: string, services: map<string, Value>, isInstance: Server.InstanceTest,
                               invoke: Server.Invoker)
    ensures var key := m.declaringClass + ":" + version + ":" + group;
      key in services && args.None? ==>
        Server.Handle(services, isInstance, invoke, CreateRequest(uuid, m, args, version, group)) ==
        Failure(Exception(NullPointerException, None, None))
    ensures var key := m.declaringClass + ":" + version + ":" + group;
      && key in services && args.Some? && |args.value| == |m.parameterTypes|
      && (forall j :: 0 <= j < |args.value| ==> Server.Accepts(isInstance, m.parameterTypes[j], args.value[j])) ==>
        Server.Handle(services, isInstance, invoke, CreateRequest(uuid, m, args, version, group)) ==
        invoke(services[key], CreateRequest(uuid, m, args, version, group))
  {
  }

  /**
   * The request as attempt `retryCount` sends it: the shared request object
   * keeps its first id for attempt 0, and every retry overwrites the id with
   * a new UUID before sending.
   */
  function RequestAt(request: RpcRequest, retryCount: int, freshIds: int -> string): (r: RpcRequest)
    ensures r.(requestId := request.requestId) == request
    ensures retryCount <= 0 ==> r == request
    ensures retryCount > 0 ==> r.requestId == freshIds(retryCount)
  {
    if retryCount > 0 then request.(requestId := freshIds(retryCount)) else request
  }

  /**
   * What one attempt met on its way: the address discovery returned, what
   * `getClient` threw, what `sendRequest` threw, and how `future.get(timeout)`
   * ended (a response, or InterruptedException, ExecutionException or
   * TimeoutException). Discovery runs before the retry's fresh id is set, so
   * it is asked about the request as `LookupRequest` describes it.
   */
  datatype AttemptEnv = AttemptEnv(
    address: Option<string>,
    clientThrown: Option<Exception>,
    sendThrown: Option<Exception>,
    wait: Result<RpcResponse, Exception>)

  /**
   * The body of the retry callback: the first stage that fails decides the
   * exception. An attempt returns exactly when every stage went through and
   * the response's code is 200, and then it returns the response's data.
   */
  function AttemptOutcome(interfaceName: string, env: AttemptEnv): (r: Outcome<Option<Value>>)
    ensures r.Returned? <==>
      && env.address.Some? && env.clientThrown.None? && env.sendThrown.None?
      && env.wait.Success? && env.wait.value.code == Some(SUCCESS_CODE)
    ensures r.Returned? ==> r.value == env.wait.value.data
    ensures env.address.None? ==> r == Threw(Throw(RuntimeException, "服务不可用: " + interfaceName))
  {
    if env.address.None? then Threw(Throw(RuntimeException, "服务不可用: " + interfaceName))
    else if env.clientThrown.Some? then Threw(env.clientThrown.value)
    else if env.sendThrown.Some? then Threw(env.sendThrown.value)
    else match env.wait
      case Failure(e) => Threw(Exception(RuntimeException, Some("调用异常: " + StringOf(e.message)), Some(e)))
      case Success(response) =>
        if response.code.None? then Threw(Exception(NullPointerException, None, None))
        else if response.code.value == SUCCESS_CODE then Returned(response.data)
        else Threw(Throw(RuntimeException, "调用失败: " + StringOf(response.message)))
  }

  /**
   * A response with any code other than 200, even one with data, is an
   * exception carrying the response's message.
   */
  lemma OtherCodeThrows(interfaceName: string, env: AttemptEnv)
    ensures env.address.Some? && env.clientThrown.None? && env.sendThrown.None? &&
            env.wait.Success? && env.wait.value.code.Some? && env.wait.value.code.value != SUCCESS_CODE ==>
      AttemptOutcome(interfaceName, env) ==
        Threw(Throw(RuntimeException, "调用失败: " + StringOf(env.wait.value.message)))
  {
  }

  /** A fail response from the server becomes a RuntimeException, never a returned null. */
  lemma FailResponseThrows(interfaceName: string, address: string, message: Option<string>, id: string)
    ensures AttemptOutcome(interfaceName, AttemptEnv(Some(address), None, None, Success(Fail(message, id)))) ==
      Threw(Throw(RuntimeException, "调用失败: " + StringOf(message)))
  {
  }

  /** The result of `invoke`: an `Object` method runs locally, anything else is a retried remote call. */
  datatype Invocation = InvokedLocally | Remote(run: Run<Option<Value>>)

  /**
   * The shared request object as attempt `retryCount` finds it, which is
   * what `lookupService` is asked about: a retry sets its fresh id only after
   * discovery found an address and `getClient` returned, so discovery sees
   * the creation id until an earlier retry got that far, and from then on the
   * id of the last earlier retry that did. `env(k, r)` is what attempt `k`
   * meets when discovery is asked about `r`.
   */
  function LookupRequest(request: RpcRequest, freshIds: int -> string, env: (int, RpcRequest) -> AttemptEnv,
                         retryCount: int): (r: RpcRequest)
    ensures r.(requestId := request.requestId) == request
    ensures retryCount <= 1 ==> r == request
    decreases retryCount
  {
    if retryCount <= 1 then request
    else
      var before := LookupRequest(request, freshIds, env, retryCount - 1);
      var met := env(retryCount - 1, before);
      if met.address.Some? && met.clientThrown.None? then RequestAt(request, retryCount - 1, freshIds)
      else before
  }

  /**
   * Discovery is asked either under the creation id or under the fresh id of
   * an earlier retry, never under the id the current retry is about to send.
   */
  lemma {:induction false} LookupIdIsEarlier(request: RpcRequest, freshIds: int -> string,
                                             env: (int, RpcRequest) -> AttemptEnv, retryCount: int)
    ensures var id := LookupRequest(request, freshIds, env, retryCount).requestId;
      id == request.requestId || exists j :: 1 <= j < retryCount && id == freshIds(j)
    decreases retryCount
  {
    if retryCount > 1 {
      LookupIdIsEarlier(request, freshIds, env, retryCount - 1);
      var before := LookupRequest(request, freshIds, env, retryCount - 1);
      var met := env(retryCount - 1, before);
      if met.address.Some? && met.clientThrown.None? {
        assert LookupRequest(request, freshIds, env, retryCount).requestId == freshIds(retryCount - 1);
      }
    }
  }

  /**
   * Once a retry has got past `getClient`, the next attempt's discovery sees
   * exactly the request that retry sent, fresh id included.
   */
  lemma LookupSeesLastSentRequest(request: RpcRequest, freshIds: int -> string,
                                  env: (int, RpcRequest) -> AttemptEnv, retryCount: int)
    requires retryCount >= 2
    requires env(retryCount - 1, LookupRequest(request, freshIds, env, retryCount - 1)).address.Some?
    requires env(retryCount - 1, LookupRequest(request, freshIds, env, retryCount - 1)).clientThrown.None?
    ensures LookupRequest(request, freshIds, env, retryCount) == RequestAt(request, retryCount - 1, freshIds)
    ensures LookupRequest(request, freshIds, env, retryCount).requestId == freshIds(retryCount - 1)
  {
  }

  /** The retry callback `invoke` hands to the retry handler, with the environment each attempt meets. */
  function Callback(request: RpcRequest, freshIds: int -> string, env: (int, RpcRequest) -> AttemptEnv)
    : int -> Outcome<Option<Value>>
  {
    k => AttemptOutcome(request.interfaceName, env(k, LookupRequest(request, freshIds, env, k)))
  }

  class RpcClientProxy {
    const timeout: Int64
    const version: string
    const group: string
    const retryHandler: RpcRetryHandler

    /** `RpcClientProxy(discovery, pool)`: 5000 ms, empty version and group, default retries. */
    constructor Default()
      ensures timeout == 5000 && version == "" && group == ""
      ensures fresh(retryHandler)
      ensures retryHandler.maxRetries == 3 && retryHandler.retryInterval == 1000
      ensures retryHandler.useExponentialBackoff
    {
      timeout := DEFAULT_TIMEOUT;
      version := "";
      group := "";
      retryHandler := new RpcRetryHandler.Default();
    }

    constructor (timeout: Int64, version: string, group: string, retryHandler: RpcRetryHandler)
      ensures this.timeout == timeout && this.version == version && this.group == group
      ensures this.retryHandler == retryHandler
    {
      this.timeout := timeout;
      this.version := version;
      this.group := group;
      this.retryHandler := retryHandler;
    }

    /**
     * `invoke(proxy, method, args)`. `uuid` and `freshIds` stand for the
     * UUIDs drawn, `env` for what each attempt meets and `interrupted` for
     * interruptions of the waits between attempts. Whatever the retry
     * handler ends with is what the caller gets.
     */
    method Invoke(m: Method, args: Option<seq<Option<Value>>>, uuid: string, freshIds: int -> string,
                  env: (int, RpcRequest) -> AttemptEnv, interrupted: int -> bool)
      returns (result: Invocation)
      ensures m.declaringClass == OBJECT_CLASS ==> result == InvokedLocally
      ensures m.declaringClass != OBJECT_CLASS ==>
        result == Remote(retryHandler.Spec(
          Callback(CreateRequest(uuid, m, args, version, group), freshIds, env), interrupted))
    {
      if m.declaringClass == OBJECT_CLASS {
        return InvokedLocally;
      }
      var request := CreateRequest(uuid, m, args, version, group);
      var outcome, calls, waits := retryHandler.Execute(Callback(request, freshIds, env), interrupted);
      result := Remote(Run(outcome, calls, waits));
    }
  }

  /**
   * With the default proxy settings, a service that discovery never finds is
   * tried four times, one, two and four seconds apart, and the call fails
   * with "服务不可用" and the interface name.
   */
  lemma UnavailableServiceFailsAfterFourCalls(p: RpcClientProxy, request: RpcRequest, freshIds: int -> string,
                                              env: (int, RpcRequest) -> AttemptEnv, interrupted: int -> bool)
    requires p.retryHandler.maxRetries == 3 && p.retryHandler.retryInterval == 1000
    requires p.retryHandler.useExponentialBackoff
    requires forall k, r :: env(k, r).address.None?
    requires forall k :: !interrupted(k)
    ensures p.retryHandler.Spec(Callback(request, freshIds, env), interrupted) ==
      Run(Threw(Throw(RuntimeException, "服务不可用: " + request.interfaceName)), [0, 1, 2, 3], [1000, 2000, 4000])
  {
    var cb := Callback(request, freshIds, env);
    forall j | 0 <= j <= 3
      ensures cb(j) == Threw(Throw(RuntimeException, "服务不可用: " + request.interfaceName))
    {
      assert env(j, LookupRequest(request, freshIds, env, j)).address.None?;
    }
    DefaultSchedule(p.retryHandler, cb, interrupted);
  }

  /**
   * One attempt against the real pool and client: discovery's answer,
   * `getClient` and `sendRequest` run for real, and `wait` is how the wait
   * for the response ended. `request` is the shared request object as the
   * attempt finds it and `freshId` the UUID a retry draws; `after` is the
   * object as the attempt leaves it, with the fresh id once a retry got past
   * `getClient`. The outcome is `AttemptOutcome` of what the attempt met;
   * when the request went out, it went out as `after`, on the pooled client
   * for that address, and its future is pending there under the id in the
   * frame. The pool keeps every other entry, and only the client pooled
   * under the address, with its pending table and channel, can change.
   */
  method Attempt(pool: RpcClientPool, request: RpcRequest, retryCount: int, freshId: string,
                 address: Option<string>, dial: (string, Int32) -> Option<Exception>,
                 wait: Result<RpcResponse, Exception>)
    returns (outcome: Outcome<Option<Value>>, met: AttemptEnv, after: RpcRequest)
    requires pool.Valid()
    modifies pool
    modifies if address.Some? && address.value in pool.clientMap then pool.clientMap[address.value].Footprint() else {}
    ensures pool.Valid()
    ensures outcome == AttemptOutcome(request.interfaceName, met)
    ensures met.address == address
    ensures address.None? || met.clientThrown.Some? ==> after == request
    ensures address.Some? && met.clientThrown.None? ==> after == RequestAt(request, retryCount, _ => freshId)
    ensures address.None? ==> pool.clientMap == old(pool.clientMap) && met.clientThrown.None? && met.sendThrown.None?
    ensures met.clientThrown.Some? ==> pool.clientMap == old(pool.clientMap)
    ensures address.Some? && address.value in old(pool.clientMap) ==> pool.clientMap == old(pool.clientMap)
    ensures address.Some? && address.value !in old(pool.clientMap) && met.clientThrown.None? ==>
      && address.value in pool.clientMap
      && fresh(pool.clientMap[address.value])
      && pool.clientMap == old(pool.clientMap)[address.value := pool.clientMap[address.value]]
    ensures address.Some? ==>
      met.clientThrown == (
        if address.value in old(pool.clientMap) then None
        else if |old(pool.clientMap)| >= pool.maxConnections then
          Some(Throw(RuntimeException, "连接池已满，无法创建新连接"))
        else if ConnectError(address.value, dial).Some? then
          Some(Exception(RuntimeException, Some("创建客户端连接失败: " + address.value), ConnectError(address.value, dial)))
        else None)
    ensures address.Some? && address.value in old(pool.clientMap) ==>
      var c := old(pool.clientMap)[address.value];
      met.sendThrown == (
        if old(c.channel).None? || !old(c.channel.value.active) then Some(Throw(IllegalStateException, "未连接到服务器"))
        else if c.RequestBody(after).Failure? then Some(c.RequestBody(after).error)
        else None)
    ensures address.Some? && address.value !in old(pool.clientMap) && met.clientThrown.None? ==>
      && address.value in pool.clientMap
      && var c := pool.clientMap[address.value];
         met.sendThrown == (if c.RequestBody(after).Failure? then Some(c.RequestBody(after).error) else None)
    ensures address.Some? && met.clientThrown.None? ==>
      && address.value in pool.clientMap
      && (met.sendThrown.None? ==>
            var c := pool.clientMap[address.value];
            && met.wait == wait
            && c.channel.Some? && |c.channel.value.outbound| > 0
            && c.RequestBody(after).Success?
            && c.channel.value.outbound[|c.channel.value.outbound| - 1] ==
               RequestMessage(c.requestIdGenerator, pool.serializerType, c.RequestBody(after).value)
            && c.requestIdGenerator in c.pending.entries)
  {
    met := AttemptEnv(address, None, None, wait);
    after := request;
    if address.None? {
      outcome := AttemptOutcome(request.interfaceName, met);
      return;
    }
    ghost var pooled := address.value in pool.clientMap;
    var client, thrown := pool.GetClient(address.value, dial);
    if thrown.Some? {
      met := met.(clientThrown := thrown);
      outcome := AttemptOutcome(request.interfaceName, met);
      return;
    }
    if retryCount > 0 {
      after := request.(requestId := freshId);
    }
    var c := client.value;
    if pooled {
      assert c.Footprint() == old(pool.clientMap[address.value].Footprint());
    }
    var future, sendThrown := c.SendRequest(after);
    met := met.(sendThrown := sendThrown);
    outcome := AttemptOutcome(request.interfaceName, met);
  }
}
