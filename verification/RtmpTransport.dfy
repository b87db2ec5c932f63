/** The RTMP receive path as it runs: one chunk per call, and a loop over the buffered stream. */
module RtmpTransport {
  import opened Basics
  import opened RtmpFormat
  import opened RtmpReceive
  import opened DataBuf

  /** The message being put together on one chunk stream. */
  class RtmpChunkData {
    var timestamp: uint32
    var timeDelta: uint32
    var msgLength: uint24
    var msgTypeId: byte
    var payload: seq<byte>  // the payload buffer
    var currentLen: nat     // how much of it is filled

    ghost predicate Valid()
      reads this
    {
      currentLen > 0 ==> currentLen < msgLength == |payload|
    }

    constructor ()
      ensures Valid() && currentLen == 0
    {
      payload, currentLen, timestamp, timeDelta, msgLength, msgTypeId := [], 0, 0, 0, 0, 0;
    }

    method CreatePayload(length: nat)
      modifies this`payload, this`currentLen
      ensures |payload| == length && currentLen == 0
    {
      payload := Repeat(0, length);
      currentLen := 0;
    }

    method CopyPayload(data: seq<byte>)
      requires currentLen + |data| <= |payload|
      modifies this`payload, this`currentLen
      ensures |payload| == old(|payload|) && currentLen == old(currentLen) + |data|
      ensures payload[..currentLen] == old(payload[..currentLen]) + data
    {
      payload := payload[..currentLen] + data + payload[currentLen + |data|..];
      currentLen := currentLen + |data|;
    }

    method Reset()
      modifies this`payload, this`currentLen
      ensures currentLen == 0
    {
      currentLen := 0;
      payload := [];
    }
  }

  class RtmpMessageTransport {
    var inChunkSize: nat
    var chunkCache: map<nat, RtmpChunkData>
    var delivered: seq<Delivered>  // every message handed to on_recv_message

    ghost predicate Valid()
      reads this, chunkCache.Values
    {
      && inChunkSize >= MIN_CHUNK_SIZE
      && (forall k :: k in chunkCache ==> chunkCache[k].Valid())
      && (forall j, k :: j in chunkCache && k in chunkCache && j != k ==> chunkCache[j] != chunkCache[k])
    }

    /** The messages begun and the chunk size, which is all that later calls depend on. */
    ghost function State(): (s: Intake)
      requires Valid()
      reads this, chunkCache.Values
      ensures s.Valid()
    {
      Intake(map k | k in chunkCache && chunkCache[k].currentLen > 0 ::
               Partial(chunkCache[k].msgLength, chunkCache[k].payload[..chunkCache[k].currentLen]),
             inChunkSize)
    }

    constructor ()
      ensures Valid() && State() == Intake(map[], 128) && delivered == [] && fresh(chunkCache.Values)
    {
      inChunkSize := MIN_CHUNK_SIZE;
      chunkCache := map[];
      delivered := [];
      new;
      var i := 0;
      while i < 16
        invariant Valid() && State() == Intake(map[], 128) && fresh(chunkCache.Values) && delivered == []
      {
        var _ := FindChunk(i);
        i := i + 1;
      }
    }

    /** The entry of a chunk stream, made if need be. */
    method FindChunk(csid: nat) returns (chunk: RtmpChunkData)
      requires Valid()
      modifies this`chunkCache
      ensures Valid() && State() == old(State())
      ensures csid in chunkCache && chunkCache[csid] == chunk
      ensures chunkCache.Values <= old(chunkCache.Values) + {chunk} && (chunk in old(chunkCache.Values) || fresh(chunk))
      ensures forall c :: c in old(chunkCache.Values) ==> c in chunkCache.Values
    {
      if csid in chunkCache {
        chunk := chunkCache[csid];
      } else {
        chunk := new RtmpChunkData();
        chunkCache := chunkCache[csid := chunk];
        assert csid in chunkCache.Keys;
        forall c | c in old(chunkCache.Values) ensures c in chunkCache.Values {
          var k :| k in old(chunkCache) && old(chunkCache)[k] == c;
          assert k in chunkCache && chunkCache[k] == c;
        }
        assert State().partials == old(State()).partials;
      }
    }

    /** Takes the next piece of a payload, or returns -1 when it is not all there. */
    method RecvPayload(chunk: RtmpChunkData, data: array<byte>, start: nat, length: nat) returns (ret: int, finish: bool)
      requires start <= length <= data.Length && inChunkSize > 0
      requires chunk.currentLen > 0 ==> chunk.currentLen < chunk.msgLength == |chunk.payload|
      modifies chunk`payload, chunk`currentLen
      ensures var got := old(if chunk.currentLen > 0 then chunk.payload[..chunk.currentLen] else []);
              var n := Min(chunk.msgLength - |got|, inChunkSize);
              if length - start < n then
                ret == -1 && !finish && chunk.payload == old(chunk.payload) && chunk.currentLen == old(chunk.currentLen)
              else
                && ret == n && finish == (chunk.currentLen == chunk.msgLength)
                && |chunk.payload| == chunk.msgLength && chunk.currentLen == |got| + n
                && chunk.payload[..chunk.currentLen] == got + data[start..start + n]
    {
      finish := false;
      var payloadLen := Min(chunk.msgLength - chunk.currentLen, inChunkSize);
      if payloadLen > length - start {
        return -1, false;
      }
      if chunk.currentLen <= 0 {
        chunk.CreatePayload(chunk.msgLength);
      }
      chunk.CopyPayload(data[start..start + payloadLen]);
      return payloadLen, chunk.currentLen == chunk.msgLength;
    }

    /** The part of on_recv_message that matters to the stream: a new chunk size, unless it is too small. */
    method OnRecvMessage(m: Delivered)
      modifies this`delivered, this`inChunkSize
      ensures delivered == old(delivered) + [m]
      ensures inChunkSize == SizeAfter(old(inChunkSize), m.typeId, m.body)
    {
      delivered := delivered + [m];
      if m.typeId != SET_CHUNK_SIZE || |m.body| < 4 {
        return;
      }
      var size := Be32(m.body, 0);
      if size < MIN_CHUNK_SIZE {
        return;
      }
      inChunkSize := size;
    }

    /** The basic header and the message header; the format bits come out as 0. */
    method DecodeHeader(data: array<byte>, length: nat) returns (r: Option<ChunkHeader>)
      requires 0 < length <= data.Length
      ensures var b := data[..length];
              var head := ReadBasic(b);
              if head.None? || length < head.value.size + 11 then r.None?
              else
                var at := head.value.size;
                r == Some(ChunkHeader(at + 11, head.value.csid, Be24(b, at), Be24(b, at + 3), b[at + 6], Be32(b, at + 7)))
    {
      ghost var b := data[..length];
      var at, csid := 1, data[0] as int % 64;
      if csid == 0 {
        if length < 2 {
          return None;
        }
        at, csid := 2, data[1] as int + 64;
      } else if csid == 1 {
        if length < 3 {
          return None;
        }
        at, csid := 3, data[1] as int + data[2] as int * 256 + 64;
      }
      assert ReadBasic(b).Some? && ReadBasic(b).value.size == at && ReadBasic(b).value.csid == csid;
      if length - at < 11 {
        return None;
      }
      return Some(ChunkHeader(at + 11, csid, Be24(data[..length], at), Be24(data[..length], at + 3), data[at + 6],
                              Be32(data[..length], at + 7)));
    }

    /** One chunk: ret is the bytes it took, or negative when it is incomplete or refused. */
    method RecvRtmpMessage(data: array<byte>, length: nat) returns (ret: int)
      requires Valid() && 0 < length <= data.Length
      modifies this, chunkCache.Values
      ensures Valid() && forall c :: c in chunkCache.Values ==> c in old(chunkCache.Values) || fresh(c)
      ensures match Receive(old(State()), data[..length])
              case Wait => ret == -1 && State() == old(State()) && delivered == old(delivered)
              case Reject => ret == -2 && State() == old(State()) && delivered == old(delivered)
              case Took(n, s, m) =>
                ret == n && State() == s && delivered == old(delivered) + if m.Some? then [m.value] else []
    {
      hide ReadBasic, Be24, Be32, Payload, State, Valid;
      var header := DecodeHeader(data, length);
      if header.None? {
        return -1;
      }
      var h := header.value;
      var chunk := FindChunk(h.csid);
      var offset := StoreHeader(chunk, h, data, length);
      if offset < 0 {
        return offset;
      }
      ret := TakePayload(chunk, h.csid, data, offset, length);
    }

    /** Stores the header in the entry of the chunk stream; returns where the payload starts, or a negative number. */
    method StoreHeader(chunk: RtmpChunkData, h: ChunkHeader, data: array<byte>, length: nat) returns (offset: int)
      requires Valid() && h.csid in chunkCache && chunkCache[h.csid] == chunk && h.size <= length <= data.Length
      modifies chunk
      ensures Valid() && State() == old(State())
      ensures var ps, extended := State().partials, h.timestamp == EXTENDED;
              if h.csid in ps && ps[h.csid].length != h.length then offset == -2
              else if extended && length < h.size + 4 then offset == -1
              else
                && offset == h.size + (if extended then 4 else 0)
                && chunk.msgLength == h.length && chunk.msgTypeId == h.typeId
                && chunk.timestamp == if extended then Be32(data[..length], h.size) % 0x8000_0000 else h.timestamp
    {
      hide Be32, State, Valid;
      InState(h.csid);
      ChunkValid(h.csid);
      var first := chunk.currentLen <= 0;
      chunk.timeDelta := h.timestamp;
      if h.timestamp < EXTENDED {
        chunk.timestamp := h.timestamp;
      }
      if !first && h.length != chunk.msgLength {
        SameState(h.csid);
        return -2;
      }
      chunk.msgLength := h.length;
      chunk.msgTypeId := h.typeId;
      offset := h.size;
      if chunk.timeDelta >= EXTENDED {
        if length - offset < 4 {
          SameState(h.csid);
          return -1;
        }
        chunk.timestamp := Be32(data[..length], offset) % 0x8000_0000;
        offset := offset + 4;
      }
      SameState(h.csid);
    }

    /** What the entry of a chunk stream says about the state. */
    lemma {:induction false} InState(csid: nat)
      requires Valid() && csid in chunkCache
      ensures csid in State().partials <==> chunkCache[csid].currentLen > 0
      ensures csid in State().partials ==> State().partials[csid].length == chunkCache[csid].msgLength
      ensures Got(State(), csid) == if chunkCache[csid].currentLen > 0 then chunkCache[csid].payload[..chunkCache[csid].currentLen] else []
    {
    }

    /** Nothing but the entry of one chunk stream has changed. */
    twostate predicate OthersSame(csid: nat)
      reads this, chunkCache.Values
    {
      && chunkCache == old(chunkCache) && inChunkSize == old(inChunkSize) && csid in chunkCache
      && forall k :: k in chunkCache && k != csid ==>
           && chunkCache[k].currentLen == old(chunkCache[k].currentLen)
           && chunkCache[k].msgLength == old(chunkCache[k].msgLength)
           && chunkCache[k].payload == old(chunkCache[k].payload)
    }

    /** Writes to fields that matter to no later call leave the state as it was. */
    twostate lemma {:induction false} SameState(csid: nat)
      requires old(Valid()) && OthersSame(csid)
      requires var c := chunkCache[csid];
               && c.currentLen == old(c.currentLen) && c.payload == old(c.payload)
               && (c.currentLen > 0 ==> c.msgLength == old(c.msgLength))
      ensures Valid() && State() == old(State())
    {
    }

    /** The entry of one chunk stream has new contents. */
    twostate lemma {:induction false} ChunkChanged(csid: nat)
      requires old(Valid()) && OthersSame(csid) && chunkCache[csid].Valid()
      ensures Valid()
      ensures var c := chunkCache[csid];
              State().partials == if c.currentLen > 0 then old(State()).partials[csid := Partial(c.msgLength, c.payload[..c.currentLen])]
                                  else old(State()).partials - {csid}
    {
    }

    /** The payload of a chunk and, when the message is whole, its delivery. */
    method TakePayload(chunk: RtmpChunkData, csid: nat, data: array<byte>, offset: nat, length: nat) returns (ret: int)
      requires Valid() && 0 < offset <= length <= data.Length
      requires csid in chunkCache && chunkCache[csid] == chunk
      requires csid in State().partials ==> State().partials[csid].length == chunk.msgLength
      modifies this`delivered, this`inChunkSize, chunk
      ensures Valid() && chunkCache == old(chunkCache)
      ensures match Payload(old(State()), data[..length], csid, old(chunk.msgLength), old(chunk.msgTypeId), old(chunk.timestamp), offset)
              case Took(n, s, m) =>
                ret == n && State() == s && delivered == old(delivered) + if m.Some? then [m.value] else []
              case _ => ret == -1 && State() == old(State()) && delivered == old(delivered)
    {
      hide State, Valid;
      ghost var got := Got(State(), csid);
      InState(csid);
      StateSize();
      ChunkValid(csid);
      label L:
      var n, finish := RecvPayload(chunk, data, offset, length);
      if n < 0 {
        chunk.timestamp := (chunk.timestamp - chunk.timeDelta) % 0x1_0000_0000;
        SameState@L(csid);
        return -1;
      }
      assert data[..length][offset..offset + n] == data[offset..offset + n];
      if finish {
        assert chunk.payload[..chunk.currentLen] == chunk.payload;
        var message := Delivered(chunk.msgTypeId, chunk.timestamp, chunk.payload);
        chunk.Reset();
        ChunkChanged@L(csid);
        label D:
        OnRecvMessage(message);
        ResizedState@D();
      } else {
        ChunkChanged@L(csid);
      }
      StateSize();
      return offset + n;
    }

    lemma {:induction false} ChunkValid(csid: nat)
      requires Valid() && csid in chunkCache
      ensures chunkCache[csid].Valid() && inChunkSize >= MIN_CHUNK_SIZE
      ensures forall k :: k in chunkCache && k != csid ==> chunkCache[k] != chunkCache[csid]
    {
    }

    lemma {:induction false} StateSize()
      requires Valid()
      ensures State().chunkSize == inChunkSize
    {
    }

    twostate lemma {:induction false} ResizedState()
      requires old(Valid()) && chunkCache == old(chunkCache) && inChunkSize >= MIN_CHUNK_SIZE
      requires forall k :: k in chunkCache ==> unchanged(chunkCache[k])
      ensures Valid() && State().partials == old(State()).partials
    {
    }
  }

  datatype ChunkHeader = ChunkHeader(size: nat, csid: nat, timestamp: uint24, length: uint24, typeId: byte, streamId: uint32)

  class RtmpClient {
    const transport: RtmpMessageTransport
    const cache: DataCacheBuf

    constructor ()
      ensures transport.Valid() && cache.Valid() && cache.Contents() == [] && transport.delivered == []
      ensures transport.State() == Intake(map[], 128)
      ensures fresh(transport) && fresh(cache) && fresh(cache.bytes) && fresh(transport.chunkCache.Values)
    {
      transport := new RtmpMessageTransport();
      cache := new DataCacheBuf();
    }

    /** One turn of the loop. */
    method TakeChunk() returns (more: bool)
      requires transport.Valid() && cache.Valid() && cache.length > 0
      modifies transport, transport.chunkCache.Values, cache`length, cache.bytes
      ensures transport.Valid() && cache.Valid()
      ensures forall c :: c in transport.chunkCache.Values ==> c in old(transport.chunkCache.Values) || fresh(c)
      ensures var r := Receive(old(transport.State()), old(cache.Contents()));
              if r.Took? then
                && more && cache.length < old(cache.length) && transport.State() == r.intake && cache.Contents() == old(cache.Contents())[r.size..]
                && transport.delivered == old(transport.delivered) + if r.message.Some? then [r.message.value] else []
              else
                && !more && transport.State() == old(transport.State()) && cache.Contents() == old(cache.Contents())
                && transport.delivered == old(transport.delivered)
    {
      hide Receive, RtmpMessageTransport.State, RtmpMessageTransport.Valid;
      var ret := transport.RecvRtmpMessage(cache.bytes, cache.length);
      if ret < 0 {
        return false;
      }
      cache.PopData(ret);
      return true;
    }

    /** Buffers what has come and takes every chunk that is complete. */
    method ProcessData(data: seq<byte>)
      requires transport.Valid() && cache.Valid()
      modifies transport, transport.chunkCache.Values, cache, cache.bytes
      ensures transport.Valid() && cache.Valid()
      ensures cache.bytes == old(cache.bytes) || fresh(cache.bytes)
      ensures forall c :: c in transport.chunkCache.Values ==> c in old(transport.chunkCache.Values) || fresh(c)
      ensures var d := Drain(old(transport.State()), old(cache.Contents()) + data);
              && transport.State() == d.intake && cache.Contents() == d.rest
              && transport.delivered == old(transport.delivered) + d.messages
    {
      hide Receive, Drain, Continues, RtmpMessageTransport.State, RtmpMessageTransport.Valid, DataCacheBuf.Contents;
      ghost var d := Drain(transport.State(), cache.Contents() + data);
      ghost var seen := transport.delivered;
      cache.PushData(data);
      Starts(d, seen);
      while cache.length > 0
        invariant transport.Valid() && cache.Valid()
        invariant cache.bytes == old(cache.bytes) || fresh(cache.bytes)
        invariant forall c :: c in transport.chunkCache.Values ==> c in old(transport.chunkCache.Values) || fresh(c)
        invariant Continues(d, seen, Drain(transport.State(), cache.Contents()), transport.delivered)
        decreases cache.length
      {
        ghost var s, b := transport.State(), cache.Contents();
        ghost var before := transport.delivered;
        var more := TakeChunk();
        if !more {
          DrainStops(s, b);
          AllDrained(d, seen, s, b, before);
          return;
        }
        DrainTook(s, b);
        OneTaken(d, seen, Drain(s, b), before, Receive(s, b).message, Drain(transport.State(), cache.Contents()));
      }
      NoContents(cache);
      DrainNothing(transport.State());
      AllDrained(d, seen, transport.State(), [], transport.delivered);
    }
  }

  /** What is still to be drained completes what was to be drained. */
  predicate Continues(d: Drained, seen: seq<Delivered>, e: Drained, delivered: seq<Delivered>) {
    d.intake == e.intake && d.rest == e.rest && seen + d.messages == delivered + e.messages
  }

  lemma {:induction false} NoContents(cache: DataCacheBuf)
    requires cache.Valid() && cache.length == 0
    ensures cache.Contents() == []
  {
  }

  lemma {:induction false} Starts(d: Drained, seen: seq<Delivered>)
    ensures Continues(d, seen, d, seen)
  {
  }

  lemma {:induction false} OneTaken(d: Drained, seen: seq<Delivered>, e0: Drained, delivered: seq<Delivered>,
                                    message: Option<Delivered>, e: Drained)
    requires Continues(d, seen, e0, delivered)
    requires e0 == e.(messages := (if message.Some? then [message.value] else []) + e.messages)
    ensures Continues(d, seen, e, delivered + if message.Some? then [message.value] else [])
  {
    var m := if message.Some? then [message.value] else [];
    assert delivered + (m + e.messages) == delivered + m + e.messages;
  }

  lemma {:induction false} AllDrained(d: Drained, seen: seq<Delivered>, s: Intake, rest: seq<byte>, delivered: seq<Delivered>)
    requires Continues(d, seen, Drained(s, rest, []), delivered)
    ensures d.intake == s && d.rest == rest && delivered == seen + d.messages
  {
    assert delivered + [] == delivered;
  }

  lemma {:induction false} DrainStops(s: Intake, b: seq<byte>)
    requires s.Valid() && !Receive(s, b).Took?
    ensures Drain(s, b) == Drained(s, b, [])
  {
    hide Receive;
  }
}
