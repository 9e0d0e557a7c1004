/**
 * `Serializer` implementations and the `SerializerFactory` registry. What a
 * serializer does to bytes is Java serialisation or Jackson, which this
 * model does not look into: a serializer is a token, and the byte
 * conversions are functions supplied from outside (`Codecs`).
 */
module Serialization {
  import opened Wrappers
  import opened JavaLang
  import opened SerializerTypes
  import opened RpcModel

  /** A `Serializer` instance: the two built-in ones, or one registered by the application. */
  datatype Serializer = JdkSerializer | JsonSerializer | Registered(id: nat)

  /**
   * `serialize` and `deserialize` of every serializer, for the two object
   * kinds that travel in frame bodies. Any of them may throw; a
   * deserializer is handed the message body, which may be null.
   */
  datatype Codecs = Codecs(
    serializeRequest: (Serializer, RpcRequest) -> Result<JavaBytes, Exception>,
    deserializeRequest: (Serializer, Option<JavaBytes>) -> Result<RpcRequest, Exception>,
    serializeResponse: (Serializer, RpcResponse) -> Result<JavaBytes, Exception>,
    deserializeResponse: (Serializer, Option<JavaBytes>) -> Result<RpcResponse, Exception>)

  /** The registry after the static initialiser: JDK and JSON only. */
  function InitialRegistry(): (m: map<SerializerType, Serializer>)
    ensures m.Keys == {JDK, JSON}
    ensures m[JDK] == JdkSerializer && m[JSON] == JsonSerializer
  {
    map[JDK := JdkSerializer, JSON := JsonSerializer]
  }

  /** `SerializerFactory`: the static `SERIALIZER_MAP`, as one object. */
  class SerializerFactory {
    var registry: map<SerializerType, Serializer>

    /** The static initialiser. */
    constructor ()
      ensures registry == InitialRegistry()
    {
      registry := InitialRegistry();
    }

    /** `getSerializer(type)`: the registered serializer, or IllegalArgumentException naming the type. */
    function GetSerializer(t: SerializerType): (r: Result<Serializer, Exception>)
      reads this
      ensures r.Success? <==> t in registry
      ensures r.Success? ==> r.value == registry[t]
      ensures r.Failure? ==>
        r.error == Throw(IllegalArgumentException, "Serializer not found for type: " + Name(t))
    {
      if t in registry then Success(registry[t])
      else Failure(Throw(IllegalArgumentException, "Serializer not found for type: " + Name(t)))
    }

    /** `registerSerializer(type, s)`: later lookups of `type` give `s`; other types are untouched. */
    method RegisterSerializer(t: SerializerType, s: Serializer)
      modifies this
      ensures registry == old(registry)[t := s]
      ensures GetSerializer(t) == Success(s)
      ensures forall u :: u != t ==> GetSerializer(u) == old(GetSerializer(u))
    {
      registry := registry[t := s];
    }
  }

  /** Out of the box, the two serializer types without an implementation are refused. */
  lemma UnregisteredByDefault(t: SerializerType)
    ensures t in InitialRegistry() <==> t == JDK || t == JSON
    ensures t == PROTOBUF || t == HESSIAN ==> t !in InitialRegistry()
  {
  }
}
