/** A message and its JSON form. */
module Messages {
  import opened Protocol

  datatype Option<+T> = None | Some(value: T)

  type Byte = n: nat | n < 256
  type JsonObject = map<string, Json>

  /** Numbers are finite doubles: whole ones, and (2 * half + 1) / 2^(exponent + 1), which is never whole. */
  datatype Json =
    | Null
    | Boolean(truth: bool)
    | Number(number: int)
    | Fraction(half: int, exponent: nat)
    | String(text: string)
    | Array(elements: seq<Json>)
    | Object(fields: JsonObject)

  /** The JSON text codec is a parameter: it is partial on bytes that are not JSON. */
  datatype Codec = Codec(encode: JsonObject -> seq<Byte>, decode: seq<Byte> -> Option<Json>) {
    ghost predicate Lawful() {
      forall o: JsonObject :: decode(encode(o)) == Some(Object(o))
    }
  }

  datatype Message = Message(command: Command, status: Status, payload: JsonObject,
                             requestId: string, errorMessage: string)
  {
    predicate IsValid() {
      command != INVALID
    }

    /** The error text is written only when there is some. */
    function ToJson(): JsonObject {
      map["requestId" := String(requestId),
          "command" := Number(command),
          "status" := Number(status),
          "payload" := Object(payload)]
      + if errorMessage != "" then map["errorMessage" := String(errorMessage)] else map[]
    }
  }

  predicate IsDouble(j: Json) {
    j.Number? || j.Fraction?
  }

  /** A number that is not a whole 32-bit value reads as 0. */
  function ToInt(j: Json): int {
    if j.Number? && -0x8000_0000 <= j.number < 0x8000_0000 then j.number else 0
  }

  /** A cast to quint16 keeps the low sixteen bits. */
  function ToQuint16(n: int): Quint16 {
    n % 0x1_0000
  }

  /** Missing or ill-typed fields keep their defaults; a message without an id gets a new one. */
  function FromJson(o: JsonObject, uuid: string): Message {
    Message(
      if "command" in o && IsDouble(o["command"]) then ToQuint16(ToInt(o["command"])) else INVALID,
      if "status" in o && IsDouble(o["status"]) then ToQuint16(ToInt(o["status"])) else SUCCESS,
      if "payload" in o && o["payload"].Object? then o["payload"].fields else map[],
      if "requestId" in o && o["requestId"].String? then o["requestId"].text else uuid,
      if "errorMessage" in o && o["errorMessage"].String? then o["errorMessage"].text else "")
  }

  /** A message survives its JSON form, whatever its fields hold. */
  lemma JsonRoundTrip(m: Message, uuid: string)
    ensures FromJson(m.ToJson(), uuid) == m
  {
    assert "command"[0] != "payload"[0];
    assert |"requestId"| == 9 && |"status"| == 6 && |"errorMessage"| == 12 && |"command"| == 7;
  }

  /** A field that does not arrive takes its default and leaves the others alone. */
  lemma MissingFieldTakesItsDefault(m: Message, uuid: string)
    ensures FromJson(m.ToJson() - {"command"}, uuid) == m.(command := INVALID)
    ensures FromJson(m.ToJson() - {"status"}, uuid) == m.(status := SUCCESS)
    ensures FromJson(m.ToJson() - {"payload"}, uuid) == m.(payload := map[])
  {
    assert "command"[0] != "payload"[0];
    assert |"requestId"| == 9 && |"status"| == 6 && |"errorMessage"| == 12 && |"command"| == 7;
  }

  /** Without an id a message gets a new one, without an error text an empty one. */
  lemma MissingTextTakesItsDefault(m: Message, uuid: string)
    ensures FromJson(m.ToJson() - {"requestId"}, uuid) == m.(requestId := uuid)
    ensures FromJson(m.ToJson() - {"errorMessage"}, uuid) == m.(errorMessage := "")
  {
    assert "command"[0] != "payload"[0];
    assert |"requestId"| == 9 && |"status"| == 6 && |"errorMessage"| == 12 && |"command"| == 7;
  }

  /** An object is a valid message exactly if its command is a whole 32-bit number that is no multiple of 2^16: the
      command is its low sixteen bits. */
  lemma WhenValid(o: JsonObject, uuid: string)
    ensures var m := FromJson(o, uuid);
      && (m.IsValid() <==>
          "command" in o && o["command"].Number? && -0x8000_0000 <= o["command"].number < 0x8000_0000
          && o["command"].number % 0x1_0000 != 0)
      && (m.IsValid() ==> m.command == o["command"].number % 0x1_0000)
  {
  }
}
