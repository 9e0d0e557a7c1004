/**
 * `RpcRequest` and `RpcResponse`: the objects a frame body carries. Their
 * fields are plain values; the objects the framework passes through without
 * looking inside (arguments, results, classes) are opaque.
 */
module RpcModel {
  import opened Wrappers
  import opened JavaLang

  /** An application object: the framework only moves it around and compares it. */
  datatype Value = Value(className: string, state: nat)

  /** A `Class<?>` object, by name. */
  type JavaClass = string

  /**
   * `RpcRequest`. `parameters` is a Java array that may itself be null (a
   * proxy call without arguments passes `args == null`), and any element may
   * be null.
   */
  datatype RpcRequest = RpcRequest(
    requestId: string,
    interfaceName: string,
    methodName: string,
    parameterTypes: seq<JavaClass>,
    parameters: Option<seq<Option<Value>>>,
    version: string,
    group: string)

  /** `RpcResponse`: `code` is an `Integer`, so it may be null on a response not built by a factory. */
  datatype RpcResponse = RpcResponse(
    requestId: string,
    code: Option<Int32>,
    message: Option<string>,
    data: Option<Value>,
    serviceName: Option<string>)

  const SUCCESS_CODE: Int32 := 200
  const FAIL_CODE: Int32 := 500

  /** `RpcResponse.success(data, requestId)`. */
  function Success(data: Option<Value>, requestId: string): (r: RpcResponse)
    ensures r.code == Some(SUCCESS_CODE) && r.message == Some("Success")
    ensures r.requestId == requestId && r.data == data && r.serviceName.None?
  {
    RpcResponse(requestId, Some(SUCCESS_CODE), Some("Success"), data, None)
  }

  /** `RpcResponse.success(data, requestId, serviceName)`. */
  function SuccessFor(data: Option<Value>, requestId: string, serviceName: Option<string>): (r: RpcResponse)
    ensures r.serviceName == serviceName
    ensures Equals(r, Success(data, requestId))
  {
    Success(data, requestId).(serviceName := serviceName)
  }

  /** `RpcResponse.fail(message, requestId)`: no data. */
  function Fail(message: Option<string>, requestId: string): (r: RpcResponse)
    ensures r.code == Some(FAIL_CODE) && r.message == message
    ensures r.requestId == requestId && r.data.None? && r.serviceName.None?
  {
    RpcResponse(requestId, Some(FAIL_CODE), message, None, None)
  }

  /** `RpcResponse.fail(message, requestId, serviceName)`. */
  function FailFor(message: Option<string>, requestId: string, serviceName: Option<string>): (r: RpcResponse)
    ensures r.serviceName == serviceName
    ensures Equals(r, Fail(message, requestId))
  {
    Fail(message, requestId).(serviceName := serviceName)
  }

  /** `RpcResponse.equals`: requestId, code, message and data; serviceName plays no part. */
  function Equals(a: RpcResponse, b: RpcResponse): (r: bool)
    ensures r <==> a.(serviceName := b.serviceName) == b
  {
    a.requestId == b.requestId && a.code == b.code && a.message == b.message && a.data == b.data
  }

  /** `Objects.hashCode` of a possibly null field: 0 for null. */
  function HashOf<T>(x: Option<T>, hash: T -> Int32): Int32
  {
    if x.Some? then hash(x.value) else 0
  }

  /**
   * `RpcResponse.hashCode`: `Objects.hash(requestId, code, message, data)`;
   * `dataHash` is the data object's own `hashCode`.
   */
  function HashCode(r: RpcResponse, dataHash: Value -> Int32): Int32
  {
    ArrayHashCode([StringHashCode(r.requestId), HashOf(r.code, (c: Int32) => c),
                   HashOf(r.message, StringHashCode), HashOf(r.data, dataHash)])
  }

  /** `equals` and `hashCode` agree: equal responses hash alike, whatever their service names. */
  lemma EqualsImpliesSameHash(a: RpcResponse, b: RpcResponse, dataHash: Value -> Int32)
    requires Equals(a, b)
    ensures HashCode(a, dataHash) == HashCode(b, dataHash)
  {
  }

  /** A success response and a fail response are never equal: their codes differ. */
  lemma SuccessNeverEqualsFail(data: Option<Value>, message: Option<string>, id1: string, id2: string)
    ensures !Equals(Success(data, id1), Fail(message, id2))
    ensures SUCCESS_CODE != FAIL_CODE
  {
  }
}
