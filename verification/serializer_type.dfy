/** The serializer tag carried in byte 3 of every frame header. */
module SerializerTypes {
  import opened Wrappers
  import opened JavaLang

  datatype SerializerType = JDK | JSON | PROTOBUF | HESSIAN

  /** `getCode()`: the wire value of each constant. */
  function Code(t: SerializerType): (c: int)
    ensures 1 <= c <= 4
  {
    match t
    case JDK => 1
    case JSON => 2
    case PROTOBUF => 3
    case HESSIAN => 4
  }

  /** `toString()` of a constant: its name. */
  function Name(t: SerializerType): string
  {
    match t
    case JDK => "JDK"
    case JSON => "JSON"
    case PROTOBUF => "PROTOBUF"
    case HESSIAN => "HESSIAN"
  }

  /** `values()`: the constants in declaration order. */
  const Values: seq<SerializerType> := [JDK, JSON, PROTOBUF, HESSIAN]

  /** The first constant of `types` whose code is `code`, if any: the loop of `valueOf`. */
  function FirstWithCode(types: seq<SerializerType>, code: int): (r: Option<SerializerType>)
    ensures r.Some? ==> r.value in types && Code(r.value) == code
    ensures r.None? ==> forall t :: t in types ==> Code(t) != code
  {
    if |types| == 0 then None
    else if Code(types[0]) == code then Some(types[0])
    else FirstWithCode(types[1..], code)
  }

  /** `SerializerType.valueOf(int)`: the constant with that code, or IllegalArgumentException. */
  function ValueOf(code: int): (r: Result<SerializerType, Exception>)
    ensures r.Success? <==> 1 <= code <= 4
    ensures r.Success? ==> Code(r.value) == code
    ensures r.Failure? ==>
      r.error == Throw(IllegalArgumentException, "Unknown serializer type code: " + IntToString(code))
  {
    match FirstWithCode(Values, code)
    case Some(t) => Success(t)
    case None =>
      assert code == 1 ==> Code(JDK) == code;
      assert code == 2 ==> Code(JSON) == code;
      assert code == 3 ==> Code(PROTOBUF) == code;
      assert code == 4 ==> Code(HESSIAN) == code;
      Failure(Throw(IllegalArgumentException, "Unknown serializer type code: " + IntToString(code)))
  }

  lemma CodesDistinct(s: SerializerType, t: SerializerType)
    ensures Code(s) == Code(t) <==> s == t
  {
  }

  lemma ValueOfCode(t: SerializerType)
    ensures ValueOf(Code(t)) == Success(t)
  {
  }

  /** The serializer byte of a fresh header, 0, names no serializer. */
  lemma DefaultByteIsUnknown()
    ensures ValueOf(0).Failure?
  {
  }
}
