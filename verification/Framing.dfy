/** Length-prefixed framing: the batch reading of a byte stream. */
module Framing {
  import opened Protocol
  import opened Messages

  const HEADER := 4
  const TWO_TO_THE_32 := 0x1_0000_0000

  /** The header is a big-endian quint32. */
  function DecodeSize(s: seq<Byte>): (n: nat)
    requires |s| >= HEADER
    ensures n < TWO_TO_THE_32
  {
    var a: int, b: int, c: int, d: int := s[0], s[1], s[2], s[3];
    a * 0x100_0000 + b * 0x1_0000 + c * 0x100 + d
  }

  /** The k low bytes of a number, most significant first. */
  function BigEndian(n: nat, k: nat): (s: seq<Byte>)
    ensures |s| == k
  {
    if k == 0 then [] else BigEndian(n / 256, k - 1) + [n % 256]
  }

  /** The size is cast to quint32 before it is written. */
  function EncodeSize(n: nat): (s: seq<Byte>)
    ensures |s| == HEADER
  {
    BigEndian(n, HEADER)
  }

  lemma EncodedBytes(n: nat, q1: nat, q2: nat, q3: nat)
    requires q1 == n / 256 && q2 == q1 / 256 && q3 == q2 / 256
    ensures EncodeSize(n) == [q3 % 256, q2 % 256, q1 % 256, n % 256]
  {
    assert BigEndian(q3, 1) == [q3 % 256];
    assert BigEndian(q2, 2) == [q3 % 256, q2 % 256];
    assert BigEndian(q1, 3) == [q3 % 256, q2 % 256, q1 % 256];
  }

  lemma DecodeEncodedSize(n: nat)
    ensures DecodeSize(EncodeSize(n)) == n % TWO_TO_THE_32
  {
    var q1 := n / 256;
    var q2 := q1 / 256;
    var q3 := q2 / 256;
    EncodedBytes(n, q1, q2, q3);
    FourDigits(n, q1, q2, q3, q3 / 256, n % 256, q1 % 256, q2 % 256, q3 % 256);
  }

  lemma FourDigits(n: nat, q1: nat, q2: nat, q3: nat, q4: nat, a: nat, b: nat, c: nat, d: nat)
    requires n == 256 * q1 + a && q1 == 256 * q2 + b && q2 == 256 * q3 + c && q3 == 256 * q4 + d
    requires a < 256 && b < 256 && c < 256 && d < 256
    ensures d * 0x100_0000 + c * 0x1_0000 + b * 0x100 + a == n % TWO_TO_THE_32
  {
    assert n == TWO_TO_THE_32 * q4 + (d * 0x100_0000 + c * 0x1_0000 + b * 0x100 + a);
  }

  function Frame(body: seq<Byte>): seq<Byte> {
    EncodeSize(|body|) + body
  }

  function Pack(c: Codec, m: Message): seq<Byte> {
    Frame(c.encode(m.ToJson()))
  }

  /** A message whose JSON text is short enough for the quint32 header. */
  predicate Packable(c: Codec, m: Message) {
    |c.encode(m.ToJson())| < TWO_TO_THE_32
  }

  // ---------- The batch reading of a stream ----------

  predicate HasFrame(s: seq<Byte>) {
    |s| >= HEADER && |s| >= HEADER + DecodeSize(s)
  }

  function FrameBody(s: seq<Byte>): seq<Byte>
    requires HasFrame(s)
  {
    s[HEADER..HEADER + DecodeSize(s)]
  }

  function AfterFrame(s: seq<Byte>): seq<Byte>
    requires HasFrame(s)
  {
    s[HEADER + DecodeSize(s)..]
  }

  function Frames(s: seq<Byte>): seq<seq<Byte>>
    decreases |s|
  {
    if HasFrame(s) then [FrameBody(s)] + Frames(AfterFrame(s)) else []
  }

  function Unread(s: seq<Byte>): seq<Byte>
    decreases |s|
  {
    if HasFrame(s) then Unread(AfterFrame(s)) else s
  }

  /** Bytes that arrive later never change the frames already complete: only the unread tail matters. */
  lemma {:induction false} FramesAppend(a: seq<Byte>, b: seq<Byte>)
    ensures Frames(a + b) == Frames(a) + Frames(Unread(a) + b)
    ensures Unread(a + b) == Unread(Unread(a) + b)
    decreases |a|
  {
    if HasFrame(a) {
      FramesAppend(AfterFrame(a), b);
      assert DecodeSize(a + b) == DecodeSize(a);
      assert FrameBody(a + b) == FrameBody(a);
      assert AfterFrame(a + b) == AfterFrame(a) + b;
    }
  }

  // ---------- A tail left in the parser ----------

  function Zeros(n: nat): (s: seq<Byte>)
    ensures |s| == n && forall i :: 0 <= i < n ==> s[i] == 0
  {
    if n == 0 then [] else [0] + Zeros(n - 1)
  }

  lemma {:induction false} FramesOfZeros(s: seq<Byte>)
    requires forall i :: 0 <= i < |s| ==> s[i] == 0
    ensures forall i :: 0 <= i < |Frames(s)| ==> Frames(s)[i] == []
    ensures |s| < HEADER ==> Frames(s) == []
    decreases |s|
  {
    if HasFrame(s) {
      assert DecodeSize(s) == 0;
      FramesOfZeros(AfterFrame(s));
    }
  }

  /** The zeros that complete the frame a tail has begun. */
  function Missing(t: seq<Byte>): nat {
    var header := if |t| >= HEADER then t else t + Zeros(HEADER - |t|);
    if HEADER + DecodeSize(header) >= |t| then HEADER + DecodeSize(header) - |t| else 0
  }

  lemma Completed(t: seq<Byte>)
    requires t != [] && !HasFrame(t)
    ensures var s := t + Zeros(Missing(t)); HasFrame(s) && AfterFrame(s) == [] && |FrameBody(s)| == DecodeSize(s)
    ensures DecodeSize(t + Zeros(Missing(t))) == 0 ==> Missing(t) < HEADER
  {
    var s := t + Zeros(Missing(t));
    if |t| < HEADER {
      var header := t + Zeros(HEADER - |t|);
      assert forall i :: 0 <= i < HEADER ==> s[i] == header[i];
      assert DecodeSize(s) == DecodeSize(header);
    } else {
      assert forall i :: 0 <= i < HEADER ==> s[i] == t[i];
      assert DecodeSize(s) == DecodeSize(t);
    }
  }

  /** An unread tail left in front of a new stream changes that stream's frames, for some stream, unless it is
      empty: a parser that is kept over a reconnect must have been drained. */
  lemma OnlyAnEmptyTailIsHarmless(t: seq<Byte>)
    requires !HasFrame(t)
    ensures (forall s: seq<Byte> :: Frames(t + s) == Frames(s)) <==> t == []
  {
    if t == [] {
      forall s: seq<Byte> ensures Frames(t + s) == Frames(s) {
        assert t + s == s;
      }
    } else {
      var s := Zeros(Missing(t));
      Completed(t);
      FramesOfZeros(s);
      assert Frames(t + s) == [FrameBody(t + s)] + Frames(AfterFrame(t + s));
      assert Frames(t + s) != Frames(s) by {
        if DecodeSize(t + s) == 0 {
          assert Frames(s) == [];
        } else {
          assert Frames(t + s)[0] != [];
        }
      }
    }
  }

  function ConcatFrames(bodies: seq<seq<Byte>>): seq<Byte> {
    if bodies == [] then [] else Frame(bodies[0]) + ConcatFrames(bodies[1..])
  }

  lemma FrameHeader(header: seq<Byte>, body: seq<Byte>, rest: seq<Byte>)
    requires |header| == HEADER
    ensures header + body + rest == header + (body + rest)
    ensures DecodeSize(header + body + rest) == DecodeSize(header)
  {
    var s := header + body + rest;
    assert s[0] == header[0] && s[1] == header[1] && s[2] == header[2] && s[3] == header[3];
  }

  /** One framed body in front of a stream is read back first exactly when its length fits the header. */
  lemma FrameRoundTrip(body: seq<Byte>, rest: seq<Byte>)
    ensures |body| < TWO_TO_THE_32 <==>
            HasFrame(Frame(body) + rest) && FrameBody(Frame(body) + rest) == body
    ensures |body| < TWO_TO_THE_32 ==> AfterFrame(Frame(body) + rest) == rest
  {
    var s := Frame(body) + rest;
    FrameHeader(EncodeSize(|body|), body, rest);
    DecodeEncodedSize(|body|);
    assert s == EncodeSize(|body|) + (body + rest);
    if |body| < TWO_TO_THE_32 {
      assert s[HEADER..HEADER + |body|] == body;
      assert s[HEADER + |body|..] == rest;
    }
  }

  /** Framing any bodies one after another and reading the stream gives back exactly those bodies:
      what a body holds never disturbs its neighbours. */
  lemma {:induction false} FramesOfConcat(bodies: seq<seq<Byte>>)
    requires forall i :: 0 <= i < |bodies| ==> |bodies[i]| < TWO_TO_THE_32
    ensures Frames(ConcatFrames(bodies)) == bodies
    ensures Unread(ConcatFrames(bodies)) == []
  {
    if bodies != [] {
      FramesOfConcat(bodies[1..]);
      FrameRoundTrip(bodies[0], ConcatFrames(bodies[1..]));
    }
  }

  // ---------- From frames to messages ----------

  /** A body that is not a JSON object becomes an Invalid message. */
  function ParseBody(c: Codec, body: seq<Byte>, uuid: string): Message {
    match c.decode(body)
    case Some(Object(fields)) => FromJson(fields, uuid)
    case _ => Message(INVALID, BAD_REQUEST, map[], uuid, "")
  }

  /** A body that is not JSON, is JSON but no object, or has no command number that survives the casts, never becomes a
      valid message; every other one does, with the low sixteen bits of that number as its command. */
  lemma WhichBodiesCount(c: Codec, body: seq<Byte>, uuid: string)
    ensures ParseBody(c, body, uuid).IsValid() <==>
            match c.decode(body)
            case Some(Object(o)) =>
              "command" in o && o["command"].Number? && -0x8000_0000 <= o["command"].number < 0x8000_0000
              && o["command"].number % 0x1_0000 != 0
            case _ => false
    ensures c.decode(body).Some? && c.decode(body).value.Object? && ParseBody(c, body, uuid).IsValid() ==>
              ParseBody(c, body, uuid).command == c.decode(body).value.fields["command"].number % 0x1_0000
  {
    match c.decode(body)
    case Some(Object(o)) => WhenValid(o, uuid);
    case _ =>
  }

  /** The k-th message received takes the k-th fresh id if it needs one. */
  function ParseAll(c: Codec, frames: seq<seq<Byte>>, uuids: nat -> string, start: nat): (ms: seq<Message>)
    ensures |ms| == |frames|
  {
    if frames == [] then []
    else [ParseBody(c, frames[0], uuids(start))] + ParseAll(c, frames[1..], uuids, start + 1)
  }

  lemma {:induction false} ParseAllAppend(c: Codec, f: seq<seq<Byte>>, g: seq<seq<Byte>>, uuids: nat -> string,
      start: nat)
    ensures ParseAll(c, f + g, uuids, start) == ParseAll(c, f, uuids, start) + ParseAll(c, g, uuids, start + |f|)
  {
    if f == [] {
      assert f + g == g;
    } else {
      ParseAllAppend(c, f[1..], g, uuids, start + 1);
      TailOfAppend(f, g);
      Assoc([ParseBody(c, f[0], uuids(start))], ParseAll(c, f[1..], uuids, start + 1), ParseAll(c, g, uuids,
          start + |f|));
    }
  }

  lemma Assoc<T>(a: seq<T>, b: seq<T>, c: seq<T>)
    ensures a + (b + c) == (a + b) + c
  {
  }

  lemma TailOfAppend<T>(a: seq<T>, b: seq<T>)
    requires a != []
    ensures (a + b)[0] == a[0] && (a + b)[1..] == a[1..] + b
  {
  }

  function PackAll(c: Codec, ms: seq<Message>): seq<Byte> {
    if ms == [] then [] else Pack(c, ms[0]) + PackAll(c, ms[1..])
  }

  predicate AllPackable(c: Codec, ms: seq<Message>) {
    forall i :: 0 <= i < |ms| ==> Packable(c, ms[i])
  }

  lemma {:induction false} PackAllAppend(c: Codec, ms: seq<Message>, ns: seq<Message>)
    ensures PackAll(c, ms + ns) == PackAll(c, ms) + PackAll(c, ns)
  {
    if ms == [] {
      assert ms + ns == ns;
    } else {
      PackAllAppend(c, ms[1..], ns);
      TailOfAppend(ms, ns);
      Assoc(Pack(c, ms[0]), PackAll(c, ms[1..]), PackAll(c, ns));
    }
  }

  lemma ParsePacked(c: Codec, m: Message, uuid: string)
    requires c.Lawful()
    ensures ParseBody(c, c.encode(m.ToJson()), uuid) == m
  {
    JsonRoundTrip(m, uuid);
  }

  /** Packed messages, concatenated, read back as the same messages with every field intact. */
  lemma {:induction false} PackRoundTrip(c: Codec, ms: seq<Message>, uuids: nat -> string, start: nat)
    requires c.Lawful()
    requires AllPackable(c, ms)
    ensures ParseAll(c, Frames(PackAll(c, ms)), uuids, start) == ms
    ensures Unread(PackAll(c, ms)) == []
  {
    if ms != [] {
      var rest := PackAll(c, ms[1..]);
      var body := c.encode(ms[0].ToJson());
      assert Packable(c, ms[0]);
      FrameRoundTrip(body, rest);
      PackRoundTrip(c, ms[1..], uuids, start + 1);
      ParsePacked(c, ms[0], uuids(start));
      ParseAllAppend(c, [body], Frames(rest), uuids, start);
      assert Frames(PackAll(c, ms)) == [body] + Frames(rest);
    }
  }
}
