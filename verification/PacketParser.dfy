/** The incremental parser, and that it agrees with the batch reading however the bytes arrive. */
module PacketParsing {
  import opened Protocol
  import opened Messages
  import opened Framing

  /** The size test casts the buffer length to quint32. */
  predicate Ready(buffer: seq<Byte>) {
    |buffer| >= HEADER && |buffer| % TWO_TO_THE_32 >= HEADER + DecodeSize(buffer)
  }

  /** The cast can only delay a frame, never invent one; below 2^32 buffered bytes it changes nothing. */
  lemma ReadyIsSound(buffer: seq<Byte>)
    ensures Ready(buffer) ==> HasFrame(buffer)
    ensures |buffer| < TWO_TO_THE_32 ==> (Ready(buffer) <==> HasFrame(buffer))
  {
    assert |buffer| % TWO_TO_THE_32 <= |buffer|;
  }

  /** Reading `before` as a whole gives `out` and then whatever reading `after` gives. */
  ghost predicate Emits(c: Codec, uuids: nat -> string, start: nat, before: seq<Byte>, out: seq<Message>,
      after: seq<Byte>) {
    && ParseAll(c, Frames(before), uuids, start) == out + ParseAll(c, Frames(after), uuids, start + |out|)
    && Unread(before) == Unread(after)
  }

  lemma EmitsFrame(c: Codec, uuids: nat -> string, start: nat, s: seq<Byte>)
    requires HasFrame(s)
    ensures Emits(c, uuids, start, s, [ParseBody(c, FrameBody(s), uuids(start))], AfterFrame(s))
  {
    ParseAllAppend(c, [FrameBody(s)], Frames(AfterFrame(s)), uuids, start);
    assert ParseAll(c, [FrameBody(s)], uuids, start) == [ParseBody(c, FrameBody(s), uuids(start))];
  }

  lemma EmitsTrans(c: Codec, uuids: nat -> string, start: nat, s: seq<Byte>, o: seq<Message>, t: seq<Byte>,
      p: seq<Message>, u: seq<Byte>)
    requires Emits(c, uuids, start, s, o, t)
    requires Emits(c, uuids, start + |o|, t, p, u)
    ensures Emits(c, uuids, start, s, o + p, u)
  {
    var last := ParseAll(c, Frames(u), uuids, start + |o| + |p|);
    assert o + (p + last) == (o + p) + last;
    assert start + |o| + |p| == start + |o + p|;
  }

  lemma EmitsNext(c: Codec, uuids: nat -> string, start: nat, s: seq<Byte>, o: seq<Message>, t: seq<Byte>)
    requires HasFrame(t)
    requires Emits(c, uuids, start, s, o, t)
    ensures Emits(c, uuids, start, s, o + [ParseBody(c, FrameBody(t), uuids(start + |o|))], AfterFrame(t))
  {
    EmitsFrame(c, uuids, start + |o|, t);
    EmitsTrans(c, uuids, start, s, o, t, [ParseBody(c, FrameBody(t), uuids(start + |o|))], AfterFrame(t));
  }

  lemma ParseFed(c: Codec, uuids: nat -> string, start: nat, s: seq<Byte>, data: seq<Byte>, tail: seq<Byte>, next: nat)
    requires tail == Unread(s) + data && next == start + |Frames(s)|
    ensures ParseAll(c, Frames(s + data), uuids, start)
         == ParseAll(c, Frames(s), uuids, start) + ParseAll(c, Frames(tail), uuids, next)
    ensures Unread(s + data) == Unread(tail)
  {
    hide ParseAll, Frames, Unread;
    FramesAppend(s, data);
    ParseAllAppend(c, Frames(s), Frames(tail), uuids, start);
  }

  /** Feeding more bytes keeps what was emitted a stretch of the batch reading. */
  lemma EmitsFeed(c: Codec, uuids: nat -> string, start: nat, s: seq<Byte>, o: seq<Message>, t: seq<Byte>,
      data: seq<Byte>)
    requires Emits(c, uuids, start, s, o, t)
    ensures Emits(c, uuids, start, s + data, o, t + data)
  {
    hide ParseAll, Frames, Unread;
    var tail, next := Unread(s) + data, start + |Frames(s)|;
    var whole, mid := ParseAll(c, Frames(s), uuids, start), ParseAll(c, Frames(t), uuids, start + |o|);
    assert |whole| == |o + mid|;
    ParseFed(c, uuids, start, s, data, tail, next);
    ParseFed(c, uuids, start + |o|, t, data, tail, next);
    Regroup(whole, o, mid, ParseAll(c, Frames(tail), uuids, next));
  }

  lemma Regroup<T>(whole: seq<T>, o: seq<T>, mid: seq<T>, last: seq<T>)
    requires whole == o + mid
    ensures whole + last == o + (mid + last)
    ensures |whole| == |o| + |mid|
  {
  }

  lemma EmitsAll(c: Codec, uuids: nat -> string, start: nat, s: seq<Byte>, o: seq<Message>, t: seq<Byte>)
    requires Emits(c, uuids, start, s, o, t)
    requires !Ready(t) && |t| < TWO_TO_THE_32
    ensures o == ParseAll(c, Frames(s), uuids, start) && t == Unread(s)
  {
    ReadyIsSound(t);
    assert ParseAll(c, Frames(t), uuids, start + |o|) == [];
  }

  class PacketParser {
    var buffer: seq<Byte>
    var nextExpectedSize: nat  // 0 stands for "not known yet"

    /** The cached size is zero or what the first four bytes say. */
    ghost predicate Valid()
      reads this
    {
      nextExpectedSize == 0 || (|buffer| >= HEADER && nextExpectedSize == DecodeSize(buffer))
    }

    constructor ()
      ensures Valid() && buffer == []
    {
      buffer, nextExpectedSize := [], 0;
    }

    method Feed(data: seq<Byte>)
      requires Valid()
      modifies this
      ensures Valid() && buffer == old(buffer) + data
    {
      buffer := buffer + data;
    }

    /** Reads the header into the cache when it is not there yet. */
    method HasNextPacket() returns (more: bool)
      requires Valid()
      modifies this`nextExpectedSize
      ensures Valid()
      ensures more == Ready(buffer)
      ensures more ==> nextExpectedSize == DecodeSize(buffer)
    {
      if |buffer| < HEADER {
        return false;
      }
      if nextExpectedSize == 0 {
        nextExpectedSize := DecodeSize(buffer);
      }
      more := |buffer| % TWO_TO_THE_32 >= HEADER + nextExpectedSize;
    }

    method NextPacket(c: Codec, uuid: string) returns (m: Message)
      requires Valid()
      modifies this
      ensures Valid()
      ensures Ready(old(buffer)) ==>
                && HasFrame(old(buffer))
                && buffer == AfterFrame(old(buffer))
                && m == ParseBody(c, FrameBody(old(buffer)), uuid)
      ensures !Ready(old(buffer)) ==>
                buffer == old(buffer) && m == Message(INVALID, BAD_REQUEST, map[], uuid, "")
    {
      ReadyIsSound(buffer);
      var more := HasNextPacket();
      if !more {
        return Message(INVALID, BAD_REQUEST, map[], uuid, "");
      }
      buffer := buffer[HEADER..];
      var jsonData := buffer[..nextExpectedSize];
      buffer := buffer[nextExpectedSize..];
      nextExpectedSize := 0;
      assert jsonData == FrameBody(old(buffer));
      match c.decode(jsonData) {
        case Some(Object(fields)) => m := FromJson(fields, uuid);
        case _ => m := Message(INVALID, BAD_REQUEST, map[], uuid, "");
      }
    }

    method Clear()
      modifies this
      ensures Valid() && buffer == [] && nextExpectedSize == 0
    {
      buffer, nextExpectedSize := [], 0;
    }

    /** The drain loop both ends run. Whatever it emits is the next stretch of the batch reading,
        and it stops only when no frame is ready. */
    method Drain(c: Codec, uuids: nat -> string, start: nat) returns (out: seq<Message>)
      requires Valid()
      modifies this
      ensures Valid() && !Ready(buffer)
      ensures Emits(c, uuids, start, old(buffer), out, buffer)
    {
      out := [];
      var more := HasNextPacket();
      while more
        invariant Valid() && more == Ready(buffer)
        invariant Emits(c, uuids, start, old(buffer), out, buffer)
        decreases |buffer|, more
      {
        ghost var before := buffer;
        ReadyIsSound(before);
        EmitsNext(c, uuids, start, old(buffer), out, before);
        var m := NextPacket(c, uuids(start + |out|));
        out := out + [m];
        more := HasNextPacket();
      }
    }
  }

  datatype Arrival = Chunk(data: seq<Byte>) | DrainNow

  function Fed(events: seq<Arrival>): seq<Byte> {
    if events == [] then []
    else Fed(events[..|events| - 1]) + if events[|events| - 1].Chunk? then events[|events| - 1].data else []
  }

  ghost predicate EndsWithDrain(events: seq<Arrival>) {
    events != [] && events[|events| - 1].DrainNow?
  }

  /** Any byte stream, valid or malformed, in any chunks, with drains placed anywhere: what comes out
      is always a stretch of the batch reading of everything fed, and after a final drain that leaves
      less than 2^32 bytes it is all of it. */
  method Receive(c: Codec, events: seq<Arrival>, uuids: nat -> string) returns (out: seq<Message>, tail: seq<Byte>)
    ensures out <= ParseAll(c, Frames(Fed(events)), uuids, 0)
    ensures Unread(tail) == Unread(Fed(events))
    ensures EndsWithDrain(events) && |tail| < TWO_TO_THE_32 ==>
              && out == ParseAll(c, Frames(Fed(events)), uuids, 0)
              && tail == Unread(Fed(events))
  {
    var parser := new PacketParser();
    out := [];
    for i := 0 to |events|
      invariant fresh(parser) && parser.Valid()
      invariant Emits(c, uuids, 0, Fed(events[..i]), out, parser.buffer)
      invariant EndsWithDrain(events[..i]) ==> !Ready(parser.buffer)
    {
      ghost var fed, before, done := Fed(events[..i]), parser.buffer, out;
      assert events[..i + 1][..i] == events[..i];
      match events[i] {
        case Chunk(data) =>
          EmitsFeed(c, uuids, 0, fed, out, before, data);
          parser.Feed(data);
        case DrainNow =>
          var more := parser.Drain(c, uuids, |out|);
          EmitsTrans(c, uuids, 0, fed, done, before, more, parser.buffer);
          out := out + more;
          assert Fed(events[..i + 1]) == fed + [] == fed;
      }
    }
    assert events[..|events|] == events;
    tail := parser.buffer;
    if EndsWithDrain(events) && |tail| < TWO_TO_THE_32 {
      EmitsAll(c, uuids, 0, Fed(events), out, tail);
    }
  }

  /** Fragmenting packed messages in any way and draining at the end returns the same messages. */
  method ReceivePacked(c: Codec, ms: seq<Message>, events: seq<Arrival>, uuids: nat -> string)
    returns (out: seq<Message>, tail: seq<Byte>)
    requires c.Lawful() && AllPackable(c, ms)
    requires Fed(events) == PackAll(c, ms)
    ensures out <= ms
    ensures EndsWithDrain(events) && |tail| < TWO_TO_THE_32 ==> out == ms && tail == []
  {
    PackRoundTrip(c, ms, uuids, 0);
    out, tail := Receive(c, events, uuids);
  }
}
