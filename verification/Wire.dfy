/** Frames as byte sequences: a length, most significant byte first, and then the content. */
module Frames {
  import opened Bytes
  import opened FileTree
  import opened Endian

  const MAX_CONTROL_MESSAGE_BYTES: nat := 1024 * 1024
  const UINT32_MAX: nat := 0xffff_ffff
  const CHUNK: nat := 8192

  function StringFrame(message: seq<byte>): seq<byte> {
    BigEndian(|message|, 4) + message
  }

  function StreamFrame(stream: seq<byte>): seq<byte> {
    BigEndian(|stream|, 8) + stream
  }

  /** The first framed string of what arrives, and what comes behind it. */
  function TakeString(incoming: seq<byte>): Option<(seq<byte>, seq<byte>)> {
    if |incoming| < 4 then None
    else
      var size := Value(incoming[..4]);
      if size > MAX_CONTROL_MESSAGE_BYTES || |incoming| < 4 + size then None
      else Some((incoming[4..4 + size], incoming[4 + size..]))
  }

  function TakeStream(incoming: seq<byte>): Option<(seq<byte>, seq<byte>)> {
    if |incoming| < 8 then None
    else
      var size := Value(incoming[..8]);
      if |incoming| < 8 + size then None
      else Some((incoming[8..8 + size], incoming[8 + size..]))
  }

  lemma PowersOf256()
    ensures Pow256(4) == UINT32_MAX + 1 && Pow256(8) == 0x1_0000_0000_0000_0000
  {
    assert Pow256(2) == 0x1_0000;
    assert Pow256(4) == 0x1_0000_0000;
  }

  lemma HeaderParts(size: nat, k: nat, content: seq<byte>, rest: seq<byte>)
    requires size == |content|
    ensures var bytes := BigEndian(size, k) + content + rest;
            && bytes[..k] == BigEndian(size, k) && |bytes| == k + size + |rest|
            && bytes[k..k + size] == content && bytes[k + size..] == rest
  {
  }

  /** Whatever follows a frame, it is received as it was sent, unless it is too long for the receiver. */
  lemma StringFrameTaken(message: seq<byte>, rest: seq<byte>)
    requires |message| <= UINT32_MAX
    ensures TakeString(StringFrame(message) + rest) ==
            if |message| <= MAX_CONTROL_MESSAGE_BYTES then Some((message, rest)) else None
  {
    PowersOf256();
    HeaderParts(|message|, 4, message, rest);
    ValueOfBigEndian(|message|, 4);
  }

  /** Four bytes of length, the highest first, and the message; more than a mebibyte is not taken. */
  lemma StringFrameBytes(message: seq<byte>)
    requires |message| < 0x1_0000_0000
    ensures var frame := StringFrame(message);
            && |frame| == 4 + |message| && frame[4..] == message
            && frame[0] as int == |message| / 0x100_0000 && frame[1] as int == |message| / 0x1_0000 % 0x100
            && frame[2] as int == |message| / 0x100 % 0x100 && frame[3] as int == |message| % 0x100
    ensures TakeString(StringFrame(message)).Some? <==> |message| <= 1048576
  {
    hide BigEndian, TakeString;
    BigEndianAt(|message|, 4, 0);
    BigEndianAt(|message|, 4, 1);
    BigEndianAt(|message|, 4, 2);
    BigEndianAt(|message|, 4, 3);
    SmallPowers();
    StringFrameTaken(message, []);
    assert StringFrame(message) + [] == StringFrame(message);
  }

  lemma SmallPowers()
    ensures Pow256(0) == 1 && Pow256(1) == 0x100 && Pow256(2) == 0x1_0000 && Pow256(3) == 0x100_0000
  {
  }

  lemma StreamFrameTaken(stream: seq<byte>, rest: seq<byte>)
    requires |stream| < 0x8000_0000_0000_0000
    ensures TakeStream(StreamFrame(stream) + rest) == Some((stream, rest))
  {
    PowersOf256();
    HeaderParts(|stream|, 8, stream, rest);
    ValueOfBigEndian(|stream|, 8);
  }

  // ---- Several messages and a stream ----

  function StringFrames(messages: seq<seq<byte>>): seq<byte> {
    if messages == [] then [] else StringFrame(messages[0]) + StringFrames(messages[1..])
  }

  /** The first count framed strings, and what comes behind them. */
  function TakeStrings(incoming: seq<byte>, count: nat): Option<(seq<seq<byte>>, seq<byte>)> {
    if count == 0 then Some(([], incoming))
    else match TakeString(incoming)
      case None => None
      case Some((message, rest)) =>
        match TakeStrings(rest, count - 1)
        case None => None
        case Some((messages, rest')) => Some(([message] + messages, rest'))
  }

  ghost predicate Short(messages: seq<seq<byte>>) {
    forall i | 0 <= i < |messages| :: |messages[i]| <= MAX_CONTROL_MESSAGE_BYTES
  }

  /** Any number of messages, with anything behind them, is received message by message. */
  lemma {:induction false} StringFramesTaken(messages: seq<seq<byte>>, rest: seq<byte>)
    requires Short(messages)
    ensures TakeStrings(StringFrames(messages) + rest, |messages|) == Some((messages, rest))
  {
    if messages == [] {
      assert StringFrames(messages) + rest == rest;
    } else {
      var behind := StringFrames(messages[1..]) + rest;
      assert StringFrames(messages) + rest == StringFrame(messages[0]) + behind;
      StringFrameTaken(messages[0], behind);
      StringFramesTaken(messages[1..], rest);
      assert [messages[0]] + messages[1..] == messages;
    }
  }

  /** Messages and then a stream: everything arrives and exactly the bytes sent are used up. */
  lemma ConversationTaken(messages: seq<seq<byte>>, stream: seq<byte>, rest: seq<byte>)
    requires Short(messages) && |stream| < 0x8000_0000_0000_0000
    ensures var incoming := StringFrames(messages) + StreamFrame(stream) + rest;
            && TakeStrings(incoming, |messages|) == Some((messages, StreamFrame(stream) + rest))
            && TakeStream(TakeStrings(incoming, |messages|).value.1) == Some((stream, rest))
  {
    hide *;
    var incoming := StringFrames(messages) + StreamFrame(stream) + rest;
    assert incoming == StringFrames(messages) + (StreamFrame(stream) + rest);
    StringFramesTaken(messages, StreamFrame(stream) + rest);
    StreamFrameTaken(stream, rest);
  }

  // ---- Connections that end early ----

  /** A frame that is cut anywhere is not taken. */
  lemma CutString(message: seq<byte>, k: nat)
    requires |message| <= UINT32_MAX && k < |StringFrame(message)|
    ensures TakeString(StringFrame(message)[..k]) == None
  {
    PowersOf256();
    ValueOfBigEndian(|message|, 4);
    if 4 <= k {
      assert StringFrame(message)[..k][..4] == BigEndian(|message|, 4);
    }
  }

  lemma CutStream(stream: seq<byte>, k: nat)
    requires |stream| < 0x8000_0000_0000_0000 && k < |StreamFrame(stream)|
    ensures TakeStream(StreamFrame(stream)[..k]) == None
    ensures 8 <= k ==> StreamFrame(stream)[..k][8..] == stream[..k - 8]
  {
    PowersOf256();
    ValueOfBigEndian(|stream|, 8);
    if 8 <= k {
      assert StreamFrame(stream)[..k][..8] == BigEndian(|stream|, 8);
    }
  }

  // ---- 64 bits as two times 32 bits ----

  lemma {:induction false} ValueConcat(a: seq<byte>, b: seq<byte>)
    ensures Value(a + b) == Value(a) * Pow256(|b|) + Value(b)
  {
    if b == [] {
      assert a + b == a;
    } else {
      var front := b[..|b| - 1];
      assert (a + b)[..|a + b| - 1] == a + front;
      ValueConcat(a, front);
      assert Value(a) * Pow256(|b|) == 256 * (Value(a) * Pow256(|front|));
    }
  }

  lemma HighAndLow(value: nat)
    requires value < 0x1_0000_0000_0000_0000
    ensures BigEndian(value / 0x1_0000_0000, 4) + BigEndian(value % 0x1_0000_0000, 4) == BigEndian(value, 8)
  {
    PowersOf256();
    var high, low := BigEndian(value / 0x1_0000_0000, 4), BigEndian(value % 0x1_0000_0000, 4);
    ValueOfBigEndian(value / 0x1_0000_0000, 4);
    ValueOfBigEndian(value % 0x1_0000_0000, 4);
    ValueConcat(high, low);
    BigEndianOfValue(high + low);
  }
}

/** The socket loops (src/tcp_transport.cpp, src/sync_server.cpp). */
module Wire {
  import opened Bytes
  import opened FileTree
  import opened Endian
  import opened Frames

  /** One end of a connection. The system decides how many bytes each call moves. */
  class Connection {
    /** The bytes that will still arrive here; the peer closes behind them. */
    var incoming: seq<byte>
    /** The bytes handed over to the system so far. */
    var outgoing: seq<byte>
    /** How many calls will still be interrupted by signals. */
    var interrupts: nat
    /** No call fails for other reasons. */
    const reliable: bool

    constructor (incoming: seq<byte>, interrupts: nat, reliable: bool)
      ensures this.incoming == incoming && outgoing == [] && this.interrupts == interrupts && this.reliable == reliable
    {
      this.incoming := incoming;
      outgoing := [];
      this.interrupts := interrupts;
      this.reliable := reliable;
    }

    /** send: a positive count, zero, or a failure that may be an interrupt. */
    method Send(data: seq<byte>) returns (count: int, interrupted: bool)
      requires data != []
      modifies this
      ensures incoming == old(incoming) && count <= |data|
      ensures outgoing == old(outgoing) + if count > 0 then data[..count] else []
      ensures interrupts == old(interrupts) - if interrupted then 1 else 0
      ensures interrupted ==> count < 0
      ensures reliable && !interrupted ==> count > 0
    {
      count, interrupted := *, *;
      interrupted := interrupted && interrupts > 0;
      if interrupted {
        interrupts := interrupts - 1;
        count := -1;
      } else if count > |data| || (reliable && count <= 0) {
        count := |data|;
      }
      if count > 0 {
        outgoing := outgoing + data[..count];
      }
    }

    /** recv: some of the bytes, nothing if the peer has closed, or a failure that may be an interrupt. */
    method Receive(size: nat) returns (count: int, data: seq<byte>, interrupted: bool)
      requires size > 0
      modifies this
      ensures outgoing == old(outgoing) && count <= size
      ensures count > 0 ==>
              count <= |old(incoming)| && data == old(incoming)[..count] && incoming == old(incoming)[count..]
      ensures count <= 0 ==> incoming == old(incoming)
      ensures interrupts == old(interrupts) - if interrupted then 1 else 0
      ensures interrupted ==> count < 0
      ensures reliable && !interrupted && old(incoming) != [] ==> count > 0
    {
      count, interrupted := *, *;
      data := [];
      interrupted := interrupted && interrupts > 0;
      if interrupted {
        interrupts := interrupts - 1;
        count := -1;
        return;
      }
      var most := if size < |incoming| then size else |incoming|;
      if count > most || (reliable && count <= 0) {
        count := most;
      }
      if count > 0 {
        data := incoming[..count];
        incoming := incoming[count..];
      }
    }
  }

  /** Of data, a part was sent, all of it when ok. */
  ghost predicate Sent(before: seq<byte>, after: seq<byte>, data: seq<byte>, ok: bool) {
    before <= after <= before + data && (ok ==> after == before + data)
  }

  method WriteAll(c: Connection, data: seq<byte>) returns (ok: bool)
    modifies c
    ensures c.incoming == old(c.incoming) && Sent(old(c.outgoing), c.outgoing, data, ok)
    ensures c.reliable ==> ok
  {
    var sent := 0;
    while sent < |data|
      invariant sent <= |data| && c.incoming == old(c.incoming) && c.outgoing == old(c.outgoing) + data[..sent]
      decreases |data| - sent, c.interrupts
    {
      var count, interrupted := c.Send(data[sent..]);
      if count < 0 {
        if interrupted {
          continue;
        }
        return false;
      }
      if count == 0 {
        return false;
      }
      assert data[..sent] + data[sent..][..count] == data[..sent + count];
      sent := sent + count;
    }
    ok := true;
  }

  method ReadAll(c: Connection, size: nat) returns (ok: bool, data: seq<byte>)
    modifies c
    ensures c.outgoing == old(c.outgoing)
    ensures ok ==> size <= |old(c.incoming)| && data == old(c.incoming)[..size] && c.incoming == old(c.incoming)[size..]
    ensures c.reliable ==> (ok <==> size <= |old(c.incoming)|)
  {
    data := [];
    while |data| < size
      invariant |data| <= size && c.outgoing == old(c.outgoing) && old(c.incoming) == data + c.incoming
      decreases size - |data|, c.interrupts
    {
      var count, chunk, interrupted := c.Receive(size - |data|);
      if count < 0 {
        if interrupted {
          continue;
        }
        return false, data;
      }
      if count == 0 {
        return false, data;
      }
      data := data + chunk;
    }
    ok := true;
  }

  // ---- Headers ----

  method WriteU32(c: Connection, value: nat) returns (ok: bool)
    requires value <= UINT32_MAX
    modifies c
    ensures c.incoming == old(c.incoming) && Sent(old(c.outgoing), c.outgoing, BigEndian(value, 4), ok)
    ensures c.reliable ==> ok
  {
    var networkValue := BigEndian(value, 4);
    ok := WriteAll(c, networkValue);
  }

  method ReadU32(c: Connection) returns (ok: bool, value: nat)
    modifies c
    ensures c.outgoing == old(c.outgoing) && value <= UINT32_MAX
    ensures ok ==> 4 <= |old(c.incoming)| && value == Value(old(c.incoming)[..4]) && c.incoming == old(c.incoming)[4..]
    ensures c.reliable ==> (ok <==> 4 <= |old(c.incoming)|)
  {
    var networkValue;
    ok, networkValue := ReadAll(c, 4);
    value := 0;
    if ok {
      value := Value(networkValue);
      BigEndianOfValue(networkValue);
      PowersOf256();
    }
  }

  method WriteU64(c: Connection, value: nat) returns (ok: bool)
    requires value < 0x1_0000_0000_0000_0000
    modifies c
    ensures c.incoming == old(c.incoming) && Sent(old(c.outgoing), c.outgoing, BigEndian(value, 8), ok)
    ensures c.reliable ==> ok
  {
    HighAndLow(value);
    var high, low := value / 0x1_0000_0000, value % 0x1_0000_0000;
    ok := WriteU32(c, high);
    if ok {
      ok := WriteU32(c, low);
    }
  }

  method ReadU64(c: Connection) returns (ok: bool, value: nat)
    modifies c
    ensures c.outgoing == old(c.outgoing)
    ensures ok ==> 8 <= |old(c.incoming)| && value == Value(old(c.incoming)[..8]) && c.incoming == old(c.incoming)[8..]
    ensures c.reliable ==> (ok <==> 8 <= |old(c.incoming)|)
  {
    ghost var start := c.incoming;
    var high, low;
    value := 0;
    ok, high := ReadU32(c);
    if !ok {
      return;
    }
    ok, low := ReadU32(c);
    if !ok {
      return;
    }
    value := high * 0x1_0000_0000 + low;
    ValueConcat(start[..4], start[4..8]);
    PowersOf256();
    assert start[..8] == start[..4] + start[4..8];
    assert start[4..][..4] == start[4..8];
  }

  // ---- Framed strings ----

  method SendFramedString(c: Connection, message: seq<byte>) returns (ok: bool)
    modifies c
    ensures c.incoming == old(c.incoming)
    ensures |message| <= UINT32_MAX ==> Sent(old(c.outgoing), c.outgoing, StringFrame(message), ok)
    ensures |message| > UINT32_MAX ==> !ok && c.outgoing == old(c.outgoing)
    ensures c.reliable ==> (ok <==> |message| <= UINT32_MAX)
  {
    if |message| > UINT32_MAX {
      return false;
    }
    ghost var start := c.outgoing;
    ok := WriteU32(c, |message|);
    assert start + BigEndian(|message|, 4) + message == start + StringFrame(message);
    if ok {
      ok := WriteAll(c, message);
    }
  }

  /** The output is touched only on success. */
  method ReceiveFramedString(c: Connection, previous: seq<byte>) returns (ok: bool, message: seq<byte>)
    modifies c
    ensures c.outgoing == old(c.outgoing)
    ensures ok ==> TakeString(old(c.incoming)) == Some((message, c.incoming))
    ensures !ok ==> message == previous
    ensures c.reliable ==> (ok <==> TakeString(old(c.incoming)).Some?)
  {
    ghost var start := c.incoming;
    message := previous;
    var size;
    ok, size := ReadU32(c);
    if !ok {
      return;
    }
    if size > MAX_CONTROL_MESSAGE_BYTES {
      return false, previous;
    }
    var fault: bool := *;
    if fault && !c.reliable {
      return false, previous;
    }
    var buffer;
    ok, buffer := ReadAll(c, size);
    assert ok ==> start[4..][..size] == start[4..4 + size] && start[4..][size..] == start[4 + size..];
    if ok {
      message := buffer;
    }
  }

  // ---- Framed streams ----

  /** A stream of known length to send from. */
  class InStream {
    const content: seq<byte>
    var position: nat
    const reliable: bool

    ghost predicate Valid()
      reads this
    {
      position <= |content|
    }

    constructor (content: seq<byte>, reliable: bool)
      ensures Valid() && this.content == content && position == 0 && this.reliable == reliable
    {
      this.content := content;
      position := 0;
      this.reliable := reliable;
    }

    /** read and gcount: at least one byte unless the stream fails or is at its end. */
    method Read(size: nat) returns (data: seq<byte>)
      requires Valid() && size > 0
      modifies this
      ensures Valid() && |data| <= size && position == old(position) + |data| && position <= |content|
      ensures data == content[old(position)..position]
      ensures reliable && old(position) < |content| ==> data != []
    {
      var count: int := *;
      var most := if size < |content| - position then size else |content| - position;
      if count > most || count < 0 || (reliable && count == 0) {
        count := most;
      }
      data := content[position..position + count];
      position := position + count;
    }
  }

  /** A stream to write to; a failing write adds nothing. */
  class OutStream {
    var content: seq<byte>
    const reliable: bool

    constructor (reliable: bool)
      ensures content == [] && this.reliable == reliable
    {
      content := [];
      this.reliable := reliable;
    }

    method Write(data: seq<byte>) returns (ok: bool)
      modifies this
      ensures content == old(content) + if ok then data else []
      ensures reliable ==> ok
    {
      var fault: bool := *;
      ok := reliable || !fault;
      if ok {
        content := content + data;
      }
    }
  }

  method SendFramedStream(c: Connection, stream: InStream) returns (ok: bool)
    requires stream.Valid() && |stream.content| < 0x8000_0000_0000_0000
    modifies c, stream
    ensures c.incoming == old(c.incoming) && Sent(old(c.outgoing), c.outgoing, StreamFrame(stream.content), ok)
    ensures c.reliable && stream.reliable ==> ok
  {
    ghost var start := c.outgoing;
    var sought: bool := *;
    if !sought && !stream.reliable {
      return false;
    }
    stream.position := 0;
    var size := |stream.content|;
    ghost var header := BigEndian(size, 8);
    assert start + header + stream.content == start + StreamFrame(stream.content);
    ok := WriteU64(c, size);
    if !ok {
      return;
    }
    var sent := 0;
    while sent < size
      invariant stream.Valid() && sent == stream.position && c.incoming == old(c.incoming)
      invariant c.outgoing == start + header + stream.content[..sent]
    {
      var remaining := size - sent;
      var data := stream.Read(if remaining < CHUNK then remaining else CHUNK);
      if data == [] {
        return false;
      }
      ghost var before := c.outgoing;
      ok := WriteAll(c, data);
      assert stream.content[..sent] + data == stream.content[..sent + |data|];
      assert before + data == start + header + stream.content[..sent + |data|];
      PrefixStays(c.outgoing, before + data, start + header, stream.content, sent + |data|);
      if !ok {
        return;
      }
      sent := sent + |data|;
    }
    assert stream.content[..sent] == stream.content;
  }

  lemma PrefixStays(after: seq<byte>, most: seq<byte>, front: seq<byte>, content: seq<byte>, n: nat)
    requires after <= most && n <= |content| && most == front + content[..n]
    ensures after <= front + content
  {
    assert most <= front + content;
  }

  /** What was written before a failure: complete chunks of what arrived. */
  ghost predicate WholeChunks(written: seq<byte>, incoming: seq<byte>) {
    |written| % CHUNK == 0 && (written != [] ==> 8 <= |incoming| && written <= incoming[8..])
  }

  method ReceiveFramedStream(c: Connection, out: OutStream) returns (ok: bool)
    modifies c, out
    ensures c.outgoing == old(c.outgoing) && old(out.content) <= out.content
    ensures var written := out.content[|old(out.content)|..];
            && (ok ==> TakeStream(old(c.incoming)) == Some((written, c.incoming)))
            && (!ok ==> WholeChunks(written, old(c.incoming)))
    ensures c.reliable && out.reliable ==> (ok <==> TakeStream(old(c.incoming)).Some?)
  {
    hide Value, TakeStream, WholeChunks;
    ghost var start, before := c.incoming, out.content;
    var size;
    ok, size := ReadU64(c);
    StreamBegins(start);
    if !ok {
      assert out.content[|before|..] == [];
      return;
    }
    var received := 0;
    while received < size
      invariant received <= size && c.outgoing == old(c.outgoing)
      invariant 8 + received <= |start| && c.incoming == start[8 + received..]
      invariant out.content == before + start[8..8 + received]
      invariant received < size ==> received % CHUNK == 0
    {
      var remaining := size - received;
      var chunk := if remaining < CHUNK then remaining else CHUNK;
      var data;
      StreamGoesOn(start, size, received);
      assert out.content[|before|..] == start[8..8 + received];
      ok, data := ReadAll(c, chunk);
      if !ok {
        return;
      }
      NextChunk(start, received, chunk, data);
      ok := out.Write(data);
      if !ok {
        assert out.content[|before|..] == start[8..8 + received];
        return;
      }
      received := received + chunk;
    }
    StreamGoesOn(start, size, received);
    assert out.content[|before|..] == start[8..8 + received];
  }

  lemma StreamBegins(start: seq<byte>)
    ensures WholeChunks([], start) && (|start| < 8 ==> TakeStream(start) == None)
  {
    hide Value;
  }

  /** What has been received of a stream of this size, and what the whole stream is. */
  lemma StreamGoesOn(start: seq<byte>, size: nat, received: nat)
    requires 8 + received <= |start| && received <= size && size == Value(start[..8])
    ensures received % CHUNK == 0 ==> WholeChunks(start[8..8 + received], start)
    ensures |start| < 8 + size ==> TakeStream(start) == None
    ensures received == size ==> TakeStream(start) == Some((start[8..8 + received], start[8 + received..]))
    ensures TakeStream(start).Some? ==> 8 + size <= |start|
  {
    hide Value;
  }

  lemma NextChunk(start: seq<byte>, received: nat, chunk: nat, data: seq<byte>)
    requires 8 + received + chunk <= |start| && data == start[8 + received..][..chunk]
    ensures start[8..8 + received] + data == start[8..8 + received + chunk]
    ensures start[8 + received..][chunk..] == start[8 + received + chunk..]
  {
  }

  /** Cut transfers: what was written is the start of what was sent, in whole chunks. */
  lemma CutTransfer(stream: seq<byte>, k: nat, written: seq<byte>)
    requires |stream| < 0x8000_0000_0000_0000 && k < |StreamFrame(stream)|
    requires WholeChunks(written, StreamFrame(stream)[..k])
    ensures TakeStream(StreamFrame(stream)[..k]) == None
    ensures written <= stream && |written| % CHUNK == 0
  {
    CutStream(stream, k);
  }
}
