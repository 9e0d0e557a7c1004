/** The message-type tag carried in byte 4 of every frame header. */
module MessageTypes {
  import opened Wrappers
  import opened JavaLang

  datatype MessageType = REQUEST | RESPONSE | HEARTBEAT_REQUEST | HEARTBEAT_RESPONSE

  /** `getCode()`: the wire value of each constant. */
  function Code(t: MessageType): (c: int)
    ensures 1 <= c <= 4
  {
    match t
    case REQUEST => 1
    case RESPONSE => 2
    case HEARTBEAT_REQUEST => 3
    case HEARTBEAT_RESPONSE => 4
  }

  /** `values()`: the constants in declaration order. */
  const Values: seq<MessageType> := [REQUEST, RESPONSE, HEARTBEAT_REQUEST, HEARTBEAT_RESPONSE]

  /** The first constant of `types` whose code is `code`, if any: the loop of `valueOf`. */
  function FirstWithCode(types: seq<MessageType>, code: int): (r: Option<MessageType>)
    ensures r.Some? ==> r.value in types && Code(r.value) == code
    ensures r.None? ==> forall t :: t in types ==> Code(t) != code
  {
    if |types| == 0 then None
    else if Code(types[0]) == code then Some(types[0])
    else FirstWithCode(types[1..], code)
  }

  /** `MessageType.valueOf(int)`: the constant with that code, or IllegalArgumentException. */
  function ValueOf(code: int): (r: Result<MessageType, Exception>)
    ensures r.Success? <==> 1 <= code <= 4
    ensures r.Success? ==> Code(r.value) == code
    ensures r.Failure? ==>
      r.error == Throw(IllegalArgumentException, "Unknown message type code: " + IntToString(code))
  {
    match FirstWithCode(Values, code)
    case Some(t) => Success(t)
    case None =>
      assert code == 1 ==> Code(REQUEST) == code;
      assert code == 2 ==> Code(RESPONSE) == code;
      assert code == 3 ==> Code(HEARTBEAT_REQUEST) == code;
      assert code == 4 ==> Code(HEARTBEAT_RESPONSE) == code;
      Failure(Throw(IllegalArgumentException, "Unknown message type code: " + IntToString(code)))
  }

  lemma CodesDistinct(s: MessageType, t: MessageType)
    ensures Code(s) == Code(t) <==> s == t
  {
  }

  lemma ValueOfCode(t: MessageType)
    ensures ValueOf(Code(t)) == Success(t)
  {
  }
}
