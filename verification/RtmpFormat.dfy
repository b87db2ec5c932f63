/**
 The RTMP chunk stream: chunk headers as they are written, and a reference reader of one message by
 section 5.3.1 of Adobe's RTMP 1.0 specification.
 */
module RtmpFormat {
  import opened Basics

  const EXTENDED := 0xFF_FFFF  // a timestamp field with this value is followed by 32 more bits
  const CACHE := 32 * 1024     // the buffer a message is encoded into
  const FMT0_MAX := 16         // the longest header
  const SET_CHUNK_SIZE := 1    // the type of the message that changes the chunk size

  type uint24 = x: int | 0 <= x < 0x100_0000

  /** The header of a message; length is that of its payload. */
  datatype Header = Header(csid: nat, timestamp: uint32, length: uint24, typeId: byte, streamId: uint32)

  datatype Message = Message(csid: nat, timestamp: uint32, typeId: byte, streamId: uint32, payload: seq<byte>)

  function Bytes24(x: uint24): (b: seq<byte>)
    ensures |b| == 3
  {
    [x / 0x1_0000, x / 0x100 % 0x100, x % 0x100]
  }

  function Be24(b: seq<byte>, i: nat): uint24
    requires i + 3 <= |b|
  {
    b[i] as int * 0x1_0000 + b[i + 1] as int * 0x100 + b[i + 2] as int
  }

  function Le32(b: seq<byte>, i: nat): uint32
    requires i + 4 <= |b|
  {
    b[i] as int + b[i + 1] as int * 0x100 + b[i + 2] as int * 0x1_0000 + b[i + 3] as int * 0x100_0000
  }

  lemma {:induction false} Be24Inverts(x: uint24, b: seq<byte>, i: nat)
    requires i + 3 <= |b| && b[i..i + 3] == Bytes24(x)
    ensures Be24(b, i) == x
  {
    var w := b[i..i + 3];
    assert b[i] == w[0] && b[i + 1] == w[1] && b[i + 2] == w[2];
  }

  lemma {:induction false} Le32Inverts(x: uint32, b: seq<byte>, i: nat)
    requires i + 4 <= |b| && b[i..i + 4] == LowFirst(x)
    ensures Le32(b, i) == x
  {
    var w := b[i..i + 4];
    assert b[i] == w[0] && b[i + 1] == w[1] && b[i + 2] == w[2] && b[i + 3] == w[3];
    FourBytes(x);
  }

  // ----- writing -----

  function Extension(timestamp: uint32): seq<byte> {
    if timestamp >= EXTENDED then Bytes32(timestamp) else []
  }

  /** The first chunk header of a message: format 0.  The message stream id is the one field with its low byte first. */
  function Fmt0(h: Header): (b: seq<byte>)
    ensures 12 <= |b| <= FMT0_MAX
  {
    [h.csid % 64] + Bytes24(Min(h.timestamp, EXTENDED)) + Bytes24(h.length) + [h.typeId] + LowFirst(h.streamId)
    + Extension(h.timestamp)
  }

  /** The header of every further chunk: format 3, with the extended timestamp again. */
  function Fmt3(h: Header): (b: seq<byte>)
    ensures 1 <= |b| <= 5
  {
    [0xC0 + h.csid % 64] + Extension(h.timestamp)
  }

  /** A payload cut into chunks; the first one has the full header if it starts the message. */
  function Chunks(h: Header, payload: seq<byte>, size: nat, first: bool): seq<byte>
    requires size > 0
    decreases |payload|
  {
    if payload == [] then []
    else
      var n := Min(size, |payload|);
      (if first then Fmt0(h) else Fmt3(h)) + payload[..n] + Chunks(h, payload[n..], size, false)
  }

  // ----- the reference reader -----

  datatype BasicHeader = BasicHeader(fmt: nat, csid: nat, size: nat)

  /** Section 5.3.1.1: one, two or three bytes. */
  function ReadBasic(b: seq<byte>): (r: Option<BasicHeader>)
    ensures r.Some? ==> 1 <= r.value.size <= |b| && r.value.size <= 3
  {
    if |b| < 1 then None
    else if b[0] % 64 > 1 then Some(BasicHeader(b[0] / 64, b[0] % 64, 1))
    else if b[0] % 64 == 0 then
      if |b| < 2 then None else Some(BasicHeader(b[0] / 64, b[1] as int + 64, 2))
    else if |b| < 3 then None
    else Some(BasicHeader(b[0] / 64, b[2] as int * 256 + b[1] as int + 64, 3))
  }

  /** The rest of a payload from chunks of format 3 on the same chunk stream. */
  function ReadRest(b: seq<byte>, size: nat, csid: nat, extended: bool, left: nat): (r: Option<(seq<byte>, nat)>)
    requires size > 0
    ensures r.Some? ==> |r.value.0| == left && r.value.1 <= |b|
    decreases left
  {
    if left == 0 then Some(([], 0))
    else
      var head := ReadBasic(b);
      if head.None? || head.value.fmt != 3 || head.value.csid != csid then None
      else
        var at := head.value.size + if extended then 4 else 0;
        var n := Min(size, left);
        if |b| < at + n then None
        else
          var rest := ReadRest(b[at + n..], size, csid, extended, left - n);
          if rest.None? then None else Some((b[at..at + n] + rest.value.0, at + n + rest.value.1))
  }

  /** One whole message that starts with a chunk of format 0, and the bytes it took. */
  function ReadMessage(b: seq<byte>, size: nat): (r: Option<(Message, nat)>)
    requires size > 0
    ensures r.Some? ==> 0 < r.value.1 <= |b|
  {
    var head := ReadBasic(b);
    if head.None? || head.value.fmt != 0 then None
    else
      var at := head.value.size;
      if |b| < at + 11 then None
      else
        var extended := Be24(b, at) == EXTENDED;
        var body := at + 11 + if extended then 4 else 0;
        var length := Be24(b, at + 3);
        var n := Min(size, length);
        if |b| < body + n then None
        else
          var rest := ReadRest(b[body + n..], size, head.value.csid, extended, length - n);
          if rest.None? then None
          else
            Some((Message(head.value.csid, if extended then Be32(b, at + 11) else Be24(b, at), b[at + 6],
                          Le32(b, at + 7), b[body..body + n] + rest.value.0),
                  body + n + rest.value.1))
  }
}
