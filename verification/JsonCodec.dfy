/** The law asked of the JSON codec can be met: a codec that meets it, with a prefix code for every value, so that
    any value written in front of any bytes is read back with those bytes left. */
module JsonCodec {
  import opened Messages

  type Bytes = seq<Byte>

  // ---------- Writing ----------

  function WriteNat(n: nat): Bytes {
    if n == 0 then [0] else [1] + WriteNat(n - 1)
  }

  function WriteInt(n: int): Bytes {
    if n >= 0 then [0] + WriteNat(n) else [1] + WriteNat(-n)
  }

  function WriteText(t: string): Bytes {
    if t == "" then [0] else [1] + WriteNat(t[0] as nat) + WriteText(t[1..])
  }

  ghost function AnyKey(m: JsonObject): (k: string)
    requires m != map[]
    ensures k in m
  {
    var k :| k in m; k
  }

  ghost function Write(j: Json): Bytes
    decreases j, 1, 0
  {
    match j
    case Null => [0]
    case Boolean(truth) => [1, if truth then 1 else 0]
    case Number(n) => [2] + WriteInt(n)
    case Fraction(half, exponent) => [3] + WriteInt(half) + WriteNat(exponent)
    case String(text) => [4] + WriteText(text)
    case Array(elements) => [5] + WriteList(j, elements)
    case Object(fields) => [6] + WriteFields(j, fields)
  }

  ghost function WriteList(parent: Json, elements: seq<Json>): Bytes
    requires forall i :: 0 <= i < |elements| ==> (parent decreases to elements[i])
    decreases parent, 0, |elements|
  {
    if elements == [] then [0] else [1] + Write(elements[0]) + WriteList(parent, elements[1..])
  }

  ghost function WriteFields(parent: Json, fields: JsonObject): Bytes
    requires forall k :: k in fields ==> (parent decreases to fields[k])
    decreases parent, 0, |fields|
  {
    if fields == map[] then [0] else
      var k := AnyKey(fields);
      [1] + WriteText(k) + Write(fields[k]) + WriteFields(parent, fields - {k})
  }

  // ---------- Reading ----------

  datatype Read<+T> = Failed | Read(value: T, rest: Bytes)

  function ReadNat(s: Bytes): (r: Read<nat>)
    ensures r.Read? ==> |r.rest| < |s|
  {
    if s == [] then Failed
    else if s[0] == 0 then Read(0, s[1..])
    else
      var r := ReadNat(s[1..]);
      if r.Read? then Read(r.value + 1, r.rest) else Failed
  }

  function ReadInt(s: Bytes): (r: Read<int>)
    ensures r.Read? ==> |r.rest| < |s|
  {
    if s == [] then Failed
    else
      var r := ReadNat(s[1..]);
      if r.Failed? then Failed
      else
        var n: int := if s[0] == 0 then r.value else -(r.value as int);
        Read(n, r.rest)
  }

  predicate IsChar(n: nat) {
    n < 0xD800 || 0xE000 <= n < 0x11_0000
  }

  function ReadText(s: Bytes): (r: Read<string>)
    ensures r.Read? ==> |r.rest| < |s|
    decreases |s|
  {
    if s == [] then Failed
    else if s[0] == 0 then Read("", s[1..])
    else
      var c := ReadNat(s[1..]);
      if c.Failed? || !IsChar(c.value) then Failed
      else
        var r := ReadText(c.rest);
        if r.Read? then Read([c.value as char] + r.value, r.rest) else Failed
  }

  function ReadJson(s: Bytes): (r: Read<Json>)
    ensures r.Read? ==> |r.rest| < |s|
    decreases |s|
  {
    if s == [] then Failed
    else if s[0] == 0 then Read(Null, s[1..])
    else if s[0] == 1 then if |s| > 1 then Read(Boolean(s[1] == 1), s[2..]) else Failed
    else if s[0] == 2 then
      var n := ReadInt(s[1..]);
      if n.Read? then Read(Number(n.value), n.rest) else Failed
    else if s[0] == 3 then
      var half := ReadInt(s[1..]);
      if half.Failed? then Failed
      else
        var exponent := ReadNat(half.rest);
        if exponent.Read? then Read(Fraction(half.value, exponent.value), exponent.rest) else Failed
    else if s[0] == 4 then
      var text := ReadText(s[1..]);
      if text.Read? then Read(String(text.value), text.rest) else Failed
    else if s[0] == 5 then
      var list := ReadList(s[1..]);
      if list.Read? then Read(Array(list.value), list.rest) else Failed
    else if s[0] == 6 then
      var fields := ReadFields(s[1..]);
      if fields.Read? then Read(Object(fields.value), fields.rest) else Failed
    else Failed
  }

  function ReadList(s: Bytes): (r: Read<seq<Json>>)
    ensures r.Read? ==> |r.rest| < |s|
    decreases |s|
  {
    if s == [] then Failed
    else if s[0] == 0 then Read([], s[1..])
    else
      var first := ReadJson(s[1..]);
      if first.Failed? then Failed
      else
        var others := ReadList(first.rest);
        if others.Read? then Read([first.value] + others.value, others.rest) else Failed
  }

  function ReadFields(s: Bytes): (r: Read<JsonObject>)
    ensures r.Read? ==> |r.rest| < |s|
    decreases |s|
  {
    if s == [] then Failed
    else if s[0] == 0 then Read(map[], s[1..])
    else
      var key := ReadText(s[1..]);
      if key.Failed? then Failed
      else
        var value := ReadJson(key.rest);
        if value.Failed? then Failed
        else
          var others := ReadFields(value.rest);
          if others.Read? then Read(others.value[key.value := value.value], others.rest) else Failed
  }

  function Decode(s: Bytes): Option<Json> {
    var r := ReadJson(s);
    if r.Read? && r.rest == [] then Some(r.value) else None
  }

  // ---------- Reading what was written ----------

  lemma {:induction false} NatRoundTrip(n: nat, rest: Bytes)
    ensures ReadNat(WriteNat(n) + rest) == Read(n, rest)
  {
    var s := WriteNat(n) + rest;
    if n == 0 {
      assert s[1..] == rest;
    } else {
      assert s[1..] == WriteNat(n - 1) + rest;
      NatRoundTrip(n - 1, rest);
    }
  }

  lemma IntRoundTrip(n: int, rest: Bytes)
    ensures ReadInt(WriteInt(n) + rest) == Read(n, rest)
  {
    var size := if n >= 0 then n else -n;
    assert (WriteInt(n) + rest)[1..] == WriteNat(size) + rest;
    NatRoundTrip(size, rest);
  }

  lemma {:induction false} TextRoundTrip(t: string, rest: Bytes)
    ensures ReadText(WriteText(t) + rest) == Read(t, rest)
  {
    var s := WriteText(t) + rest;
    if t == "" {
      assert s[1..] == rest;
    } else {
      var tail := WriteText(t[1..]) + rest;
      assert s[1..] == WriteNat(t[0] as nat) + tail;
      NatRoundTrip(t[0] as nat, tail);
      TextRoundTrip(t[1..], rest);
      assert t == [t[0]] + t[1..];
    }
  }

  lemma Tagged(tag: Byte, body: Bytes, rest: Bytes)
    ensures var s := [tag] + body + rest; s[0] == tag && s[1..] == body + rest
  {
  }

  lemma ReadsNumber(n: int, rest: Bytes)
    ensures ReadJson([2] + WriteInt(n) + rest) == Read(Number(n), rest)
  {
    hide WriteInt, ReadInt;
    Tagged(2, WriteInt(n), rest);
    IntRoundTrip(n, rest);
  }

  lemma ReadsFraction(half: int, exponent: nat, rest: Bytes)
    ensures ReadJson([3] + WriteInt(half) + WriteNat(exponent) + rest) == Read(Fraction(half, exponent), rest)
  {
    hide WriteInt, ReadInt, WriteNat, ReadNat;
    var tail := WriteNat(exponent) + rest;
    assert [3] + WriteInt(half) + WriteNat(exponent) + rest == [3] + WriteInt(half) + tail;
    Tagged(3, WriteInt(half), tail);
    IntRoundTrip(half, tail);
    NatRoundTrip(exponent, rest);
  }

  lemma ReadsString(text: string, rest: Bytes)
    ensures ReadJson([4] + WriteText(text) + rest) == Read(String(text), rest)
  {
    hide WriteText, ReadText;
    Tagged(4, WriteText(text), rest);
    TextRoundTrip(text, rest);
  }

  lemma ReadsArray(body: Bytes, elements: seq<Json>, rest: Bytes)
    requires ReadList(body + rest) == Read(elements, rest)
    ensures ReadJson([5] + body + rest) == Read(Array(elements), rest)
  {
    hide ReadList;
    Tagged(5, body, rest);
  }

  lemma ReadsObject(body: Bytes, fields: JsonObject, rest: Bytes)
    requires ReadFields(body + rest) == Read(fields, rest)
    ensures ReadJson([6] + body + rest) == Read(Object(fields), rest)
  {
    hide ReadFields;
    Tagged(6, body, rest);
  }

  lemma ReadsElement(head: Bytes, tail: Bytes, first: Json, others: seq<Json>, rest: Bytes)
    requires ReadJson(head + tail) == Read(first, tail) && ReadList(tail) == Read(others, rest)
    ensures ReadList([1] + head + tail) == Read([first] + others, rest)
  {
    hide ReadJson;
    Tagged(1, head, tail);
  }

  lemma ReadsField(k: string, head: Bytes, tail: Bytes, value: Json, others: JsonObject, rest: Bytes)
    requires ReadJson(head + tail) == Read(value, tail) && ReadFields(tail) == Read(others, rest)
    ensures ReadFields([1] + WriteText(k) + (head + tail)) == Read(others[k := value], rest)
  {
    hide ReadJson, ReadText, WriteText;
    Tagged(1, WriteText(k), head + tail);
    TextRoundTrip(k, head + tail);
  }

  lemma {:induction false} JsonRoundTrips(j: Json, rest: Bytes)
    ensures ReadJson(Write(j) + rest) == Read(j, rest)
    decreases j, 1, 0
  {
    hide ReadJson, ReadList, ReadFields, WriteInt, WriteNat, WriteText, WriteList, WriteFields;
    match j
    case Null => ReadsNull(rest);
    case Boolean(truth) => ReadsBoolean(truth, rest);
    case Number(n) => ReadsNumber(n, rest);
    case Fraction(half, exponent) => ReadsFraction(half, exponent, rest);
    case String(text) => ReadsString(text, rest);
    case Array(elements) =>
      ListRoundTrips(j, elements, rest);
      ReadsArray(WriteList(j, elements), elements, rest);
    case Object(fields) =>
      FieldsRoundTrip(j, fields, rest);
      ReadsObject(WriteFields(j, fields), fields, rest);
  }

  lemma ReadsNull(rest: Bytes)
    ensures ReadJson([0] + rest) == Read(Null, rest)
  {
    assert ([0] + rest)[1..] == rest;
  }

  lemma ReadsBoolean(truth: bool, rest: Bytes)
    ensures ReadJson([1, if truth then 1 else 0] + rest) == Read(Boolean(truth), rest)
  {
    assert ([1, if truth then 1 else 0] + rest)[2..] == rest;
  }

  lemma NothingWritten(rest: Bytes)
    ensures ReadList([0] + rest) == Read([], rest) && ReadFields([0] + rest) == Read(map[], rest)
  {
    assert ([0] + rest)[1..] == rest;
  }

  lemma {:induction false} ListRoundTrips(parent: Json, elements: seq<Json>, rest: Bytes)
    requires forall i :: 0 <= i < |elements| ==> (parent decreases to elements[i])
    ensures ReadList(WriteList(parent, elements) + rest) == Read(elements, rest)
    decreases parent, 0, |elements|
  {
    hide ReadJson, ReadList, Write;
    NothingWritten(rest);
    if elements != [] {
      var head, others := Write(elements[0]), WriteList(parent, elements[1..]);
      ListRoundTrips(parent, elements[1..], rest);
      JsonRoundTrips(elements[0], others + rest);
      ReadsElement(head, others + rest, elements[0], elements[1..], rest);
      assert WriteList(parent, elements) + rest == [1] + head + (others + rest);
      assert elements == [elements[0]] + elements[1..];
    }
  }

  lemma {:induction false} FieldsRoundTrip(parent: Json, fields: JsonObject, rest: Bytes)
    requires forall k :: k in fields ==> (parent decreases to fields[k])
    ensures ReadFields(WriteFields(parent, fields) + rest) == Read(fields, rest)
    decreases parent, 0, |fields|
  {
    hide ReadJson, ReadFields, Write, WriteText;
    NothingWritten(rest);
    if fields != map[] {
      var k := AnyKey(fields);
      var others := fields - {k};
      var head, last := Write(fields[k]), WriteFields(parent, others);
      FieldsRoundTrip(parent, others, rest);
      JsonRoundTrips(fields[k], last + rest);
      ReadsField(k, head, last + rest, fields[k], others, rest);
      assert WriteFields(parent, fields) + rest == [1] + WriteText(k) + (head + (last + rest));
      assert others[k := fields[k]] == fields;
    }
  }

  /** Some codec is lawful, so nothing proved from the law is proved about no codec at all. */
  lemma LawfulCodecExists()
    ensures exists c: Codec :: c.Lawful()
  {
    var c := Codec((o: JsonObject) => Write(Object(o)), s => Decode(s));
    forall o: JsonObject ensures c.decode(c.encode(o)) == Some(Object(o)) {
      JsonRoundTrips(Object(o), []);
      assert Write(Object(o)) + [] == Write(Object(o));
    }
    assert c.Lawful();
  }
}
