/** Sending an RTMP message: chunks are gathered in a cache buffer and given to the socket. */
module RtmpSend {
  import opened Basics
  import opened RtmpFormat

  class Sender {
    var outChunkSize: nat
    const cache: array<byte>
    var sent: seq<seq<byte>>  // what the socket was given

    constructor (size: nat)
      ensures outChunkSize == size && sent == [] && cache.Length == CACHE && fresh(cache)
    {
      outChunkSize := size;
      cache := new byte[CACHE];
      sent := [];
    }

    method SendData(data: seq<byte>)
      modifies this`sent
      ensures sent == old(sent) + [data] && Flatten(sent) == old(Flatten(sent)) + data
    {
      FlattenSnoc(sent, data);
      sent := sent + [data];
    }

    /** A header and a piece of payload, copied behind what the cache holds. */
    method Append(header: seq<byte>, piece: seq<byte>, index: nat) returns (next: nat)
      requires index + |header| + |piece| <= cache.Length
      modifies cache
      ensures next == index + |header| + |piece|
      ensures cache[..next] == old(cache[..index]) + header + piece
    {
      forall k | 0 <= k < |header| {
        cache[index + k] := header[k];
      }
      next := index + |header|;
      assert cache[..next] == old(cache[..index]) + header;
      forall k | 0 <= k < |piece| {
        cache[next + k] := piece[k];
      }
      next := next + |piece|;
    }

    /**
     What the socket is given, joined, is the chunk encoding of the payload, in pieces that are neither
     empty nor longer than the cache.
     */
    method SendMessage(h: Header, payload: seq<byte>)
      requires cache.Length == CACHE && outChunkSize > 0
      requires Fits(h, |payload|, outChunkSize, true, 0)
      modifies this`sent, cache
      ensures |sent| >= |old(sent)| && sent[..|old(sent)|] == old(sent)
      ensures Flatten(sent) == Flatten(old(sent)) + Chunks(h, payload, outChunkSize, true)
      ensures forall k :: |old(sent)| <= k < |sent| ==> 0 < |sent[k]| <= CACHE
    {
      hide Fmt0, Fmt3, Flatten, Chunks, Sums, Fits;
      var start, index := 0, 0;
      ghost var goal := Flatten(sent) + Chunks(h, payload, outChunkSize, true);
      Started(Flatten(sent), cache[..0], payload, h, outChunkSize);
      while start < |payload|
        invariant start <= |payload| && 0 <= index < CACHE - FMT0_MAX
        invariant Fits(h, |payload| - start, outChunkSize, start == 0, index)
        invariant |old(sent)| <= |sent| && sent[..|old(sent)|] == old(sent)
        invariant Sums(Flatten(sent), cache[..index], Chunks(h, payload[start..], outChunkSize, start == 0), goal)
        invariant forall k :: |old(sent)| <= k < |sent| ==> 0 < |sent[k]| <= CACHE
      {
        ghost var held := cache[..index];
        var header := if start == 0 then Fmt0(h) else Fmt3(h);
        var len := Min(outChunkSize, |payload| - start);
        var piece := payload[start..start + len];
        ghost var rest := Chunks(h, payload[start + len..], outChunkSize, false);
        NextChunk(h, payload, start, len, outChunkSize);
        NextFits(h, |payload| - start, outChunkSize, start == 0, index);
        index := Append(header, piece, index);
        start := start + len;
        Moved(Flatten(sent), held, header, piece, rest, goal);
        if CACHE - index <= FMT0_MAX {
          Flushed(Flatten(sent), cache[..index], cache[..0], rest, goal);
          SendData(cache[..index]);
          index := 0;
        }
      }
      NoChunks(h, payload[start..], outChunkSize, start == 0);
      Flushed(Flatten(sent), cache[..index], cache[..0], [], goal);
      Finished(Flatten(sent), cache[..index], goal);
      if index > 0 {
        SendData(cache[..index]);
      } else {
        assert cache[..index] == [];
      }
    }

    /** Sends a message and takes the new chunk size from a Set Chunk Size message. */
    method Send(m: Outgoing)
      requires cache.Length == CACHE && outChunkSize > 0
      requires Fits(m.header, |m.payload|, outChunkSize, true, 0)
      modifies this`sent, this`outChunkSize, cache
      ensures Flatten(sent) == Flatten(old(sent)) + Chunks(m.header, m.payload, old(outChunkSize), true)
      ensures outChunkSize == SizeAfter(old(outChunkSize), m.header.typeId, m.payload)
    {
      SendMessage(m.header, m.payload);
      outChunkSize := SizeAfter(outChunkSize, m.header.typeId, m.payload);
    }

    /** Message after message gives the socket the session, across changes of the chunk size. */
    method SendAll(ms: seq<Outgoing>)
      requires cache.Length == CACHE && Sendable(ms, outChunkSize) && AllFit(ms, outChunkSize)
      modifies this`sent, this`outChunkSize, cache
      ensures Flatten(sent) == Flatten(old(sent)) + Session(ms, old(outChunkSize))
    {
      hide Flatten, Chunks, Session, Fits, SizeAfter;
      var i := 0;
      ghost var goal := Flatten(sent) + Session(ms, outChunkSize);
      assert ms[0..] == ms;
      while i < |ms|
        invariant i <= |ms| && Sendable(ms[i..], outChunkSize) && AllFit(ms[i..], outChunkSize)
        invariant Flatten(sent) + Session(ms[i..], outChunkSize) == goal
      {
        ghost var before := Flatten(sent);
        SessionStep(ms[i..], outChunkSize);
        assert ms[i..][0] == ms[i] && ms[i..][1..] == ms[i + 1..];
        ghost var size := outChunkSize;
        Send(ms[i]);
        assert before + (Chunks(ms[i].header, ms[i].payload, size, true) + Session(ms[i + 1..], outChunkSize)) ==
               before + Chunks(ms[i].header, ms[i].payload, size, true) + Session(ms[i + 1..], outChunkSize);
        i := i + 1;
      }
      SessionEnds(ms[i..], outChunkSize);
    }
  }

  /** Where the next chunk ends in the cache. */
  function ChunkEnd(h: Header, left: nat, size: nat, first: bool, index: nat): nat {
    index + |if first then Fmt0(h) else Fmt3(h)| + Min(size, left)
  }

  /** No copy runs over the cache: every chunk ends in it, starting anew whenever too little room is left. */
  predicate Fits(h: Header, left: nat, size: nat, first: bool, index: nat)
    requires size > 0
    decreases left
  {
    left > 0 ==>
      var end := ChunkEnd(h, left, size, first, index);
      end <= CACHE && Fits(h, left - Min(size, left), size, false, if CACHE - end <= FMT0_MAX then 0 else end)
  }

  lemma {:induction false} NextFits(h: Header, left: nat, size: nat, first: bool, index: nat)
    requires size > 0 && left > 0 && Fits(h, left, size, first, index)
    ensures var end := ChunkEnd(h, left, size, first, index);
            end <= CACHE && Fits(h, left - Min(size, left), size, false, if CACHE - end <= FMT0_MAX then 0 else end)
    ensures ChunkEnd(h, left, size, first, index) == index + |if first then Fmt0(h) else Fmt3(h)| + Min(size, left)
  {
    hide Fmt0, Fmt3;
  }

  /** A message whose whole encoding has room never runs over. */
  lemma {:induction false} WholeFits(h: Header, payload: seq<byte>, size: nat, first: bool, index: nat)
    requires size > 0 && index + |Chunks(h, payload, size, first)| <= CACHE
    ensures Fits(h, |payload|, size, first, index)
    decreases |payload|
  {
    hide Fmt0, Fmt3;
    if payload != [] {
      var n := Min(size, |payload|);
      var end := ChunkEnd(h, |payload|, size, first, index);
      WholeFits(h, payload[n..], size, false, if CACHE - end <= FMT0_MAX then 0 else end);
    }
  }

  /** Chunk after chunk of full size, without a flush. */
  lemma {:induction false} FullChunks(h: Header, left: nat, size: nat, index: nat, k: nat)
    requires size > 0 && k * size <= left && Fits(h, left, size, false, index)
    requires index + k * (|Fmt3(h)| + size) < CACHE - FMT0_MAX
    ensures Fits(h, left - k * size, size, false, index + k * (|Fmt3(h)| + size))
    decreases k
  {
    hide Fmt3, Fits;
    if k > 0 {
      var c := |Fmt3(h)| + size;
      assert k * size == size + (k - 1) * size && k * c == c + (k - 1) * c;
      assert (k - 1) * size >= 0 && (k - 1) * c >= 0;
      NextFits(h, left, size, false, index);
      assert Min(size, left) == size;
      FullChunks(h, left - size, size, index + c, k - 1);
    }
  }

  /** At the default chunk size the 254th chunk of a message runs over the cache. */
  lemma {:induction false} LongMessageRunsOver(h: Header, length: nat)
    requires h.timestamp < EXTENDED && length >= 253 * 128 + 120
    ensures !Fits(h, length, 128, true, 0)
  {
    if Fits(h, length, 128, true, 0) {
      hide Fits;
      NextFits(h, length, 128, true, 0);
      FullChunks(h, length - 128, 128, 140, 252);
    }
  }

  /** What was sent, what the cache holds and what is still to come. */
  predicate Sums(sent: seq<byte>, held: seq<byte>, rest: seq<byte>, goal: seq<byte>) {
    sent + held + rest == goal
  }

  lemma {:induction false} Started(sent: seq<byte>, nothing: seq<byte>, payload: seq<byte>, h: Header, size: nat)
    requires nothing == [] && size > 0
    ensures payload[0..] == payload
    ensures Sums(sent, nothing, Chunks(h, payload[0..], size, true), sent + Chunks(h, payload, size, true))
  {
    hide Chunks;
    assert sent + nothing == sent && payload[0..] == payload;
  }

  lemma {:induction false} Moved(sent: seq<byte>, held: seq<byte>, header: seq<byte>, piece: seq<byte>, rest: seq<byte>, goal: seq<byte>)
    requires Sums(sent, held, header + piece + rest, goal)
    ensures Sums(sent, held + header + piece, rest, goal)
  {
    assert sent + held + (header + piece + rest) == sent + (held + header + piece) + rest;
  }

  lemma {:induction false} Flushed(sent: seq<byte>, held: seq<byte>, nothing: seq<byte>, rest: seq<byte>, goal: seq<byte>)
    requires Sums(sent, held, rest, goal) && nothing == []
    ensures Sums(sent + held, nothing, rest, goal)
  {
    assert sent + held + nothing == sent + held;
  }

  lemma {:induction false} Finished(sent: seq<byte>, held: seq<byte>, goal: seq<byte>)
    requires Sums(sent, held, [], goal)
    ensures sent + held == goal && (held == [] ==> sent == goal)
  {
  }

  lemma {:induction false} NoChunks(h: Header, payload: seq<byte>, size: nat, first: bool)
    requires size > 0 && |payload| == 0
    ensures Chunks(h, payload, size, first) == []
  {
  }

  lemma {:induction false} NextChunk(h: Header, payload: seq<byte>, start: nat, len: nat, size: nat)
    requires start < |payload| && size > 0 && len == Min(size, |payload| - start)
    ensures Chunks(h, payload[start..], size, start == 0) ==
            (if start == 0 then Fmt0(h) else Fmt3(h)) + payload[start..start + len]
            + Chunks(h, payload[start + len..], size, false)
  {
    hide Fmt0, Fmt3;
    assert payload[start..][..len] == payload[start..start + len] && payload[start..][len..] == payload[start + len..];
  }

  // ----- what the peer reads -----

  lemma {:induction false} BasicReads(fmt: nat, csid: nat, b: seq<byte>)
    requires 2 <= csid <= 63 && fmt < 4 && b != [] && b[0] == fmt * 64 + csid
    ensures ReadBasic(b) == Some(BasicHeader(fmt, csid, 1))
  {
  }

  lemma {:induction false} HeaderStarts(h: Header)
    requires 2 <= h.csid <= 63
    ensures |Fmt0(h)| == (if h.timestamp >= EXTENDED then 16 else 12) && Fmt0(h)[0] == h.csid
    ensures |Fmt3(h)| == (if h.timestamp >= EXTENDED then 5 else 1) && Fmt3(h)[0] == 192 + h.csid
  {
  }

  /** Where the parts of a concatenation are. */
  lemma {:induction false} Parts(head: seq<byte>, piece: seq<byte>, rest: seq<byte>, suffix: seq<byte>)
    requires head != []
    ensures var b := head + piece + rest + suffix;
            && b[0] == head[0] && b[..|head|] == head && b[|head|..|head| + |piece|] == piece
            && b[|head| + |piece|..] == rest + suffix
  {
  }

  lemma {:induction false} NothingLeft(b: seq<byte>, size: nat, csid: nat, extended: bool)
    requires size > 0
    ensures ReadRest(b, size, csid, extended, 0) == Some(([], 0))
  {
  }

  lemma {:induction false} RestStep(b: seq<byte>, size: nat, csid: nat, extended: bool, left: nat, bytes: seq<byte>, m: nat)
    requires size > 0 && left > 0 && ReadBasic(b) == Some(BasicHeader(3, csid, 1))
    requires var at, n := if extended then 5 else 1, Min(size, left);
             |b| >= at + n && ReadRest(b[at + n..], size, csid, extended, left - n) == Some((bytes, m))
    ensures var at, n := if extended then 5 else 1, Min(size, left);
            ReadRest(b, size, csid, extended, left) == Some((b[at..at + n] + bytes, at + n + m))
  {
    hide ReadBasic;
  }

  lemma {:induction false} RestReads(h: Header, payload: seq<byte>, size: nat, suffix: seq<byte>)
    requires size > 0 && 2 <= h.csid <= 63
    ensures var c := Chunks(h, payload, size, false);
            ReadRest(c + suffix, size, h.csid, h.timestamp >= EXTENDED, |payload|) == Some((payload, |c|))
    decreases |payload|
  {
    hide Fmt0, Fmt3, ReadBasic, ReadRest;
    if payload == [] {
      NothingLeft(suffix, size, h.csid, h.timestamp >= EXTENDED);
      assert [] + suffix == suffix;
    } else {
      var n := Min(size, |payload|);
      var rest := Chunks(h, payload[n..], size, false);
      var b := Fmt3(h) + payload[..n] + rest + suffix;
      assert Chunks(h, payload, size, false) == Fmt3(h) + payload[..n] + rest;
      HeaderStarts(h);
      Parts(Fmt3(h), payload[..n], rest, suffix);
      BasicReads(3, h.csid, b);
      RestReads(h, payload[n..], size, suffix);
      RestStep(b, size, h.csid, h.timestamp >= EXTENDED, |payload|, payload[n..], |rest|);
      assert payload[..n] + payload[n..] == payload;
    }
  }

  lemma {:induction false} HeaderFields(h: Header, b: seq<byte>)
    requires |b| >= |Fmt0(h)| && b[..|Fmt0(h)|] == Fmt0(h)
    ensures Be24(b, 1) == Min(h.timestamp, EXTENDED) && Be24(b, 4) == h.length && b[7] == h.typeId
    ensures Le32(b, 8) == h.streamId
    ensures h.timestamp >= EXTENDED ==> |b| >= 16 && Be32(b, 12) == h.timestamp
  {
    var f := Fmt0(h);
    assert forall k :: 0 <= k < |f| ==> b[k] == f[k];
    assert b[1..4] == f[1..4] == Bytes24(Min(h.timestamp, EXTENDED));
    Be24Inverts(Min(h.timestamp, EXTENDED), b, 1);
    assert b[4..7] == f[4..7] == Bytes24(h.length);
    Be24Inverts(h.length, b, 4);
    assert b[8..12] == f[8..12] == LowFirst(h.streamId);
    Le32Inverts(h.streamId, b, 8);
    if h.timestamp >= EXTENDED {
      assert b[12..16] == f[12..16] == Bytes32(h.timestamp);
      Be32Inverts(h.timestamp, b, 12);
    }
  }

  /**
   The peer gets the message back, whatever is sent after it: payload, type, length, timestamp and
   stream.  An empty payload sends nothing at all, so the peer cannot get it.
   */
  lemma {:induction false} SentIsRead(h: Header, payload: seq<byte>, size: nat, suffix: seq<byte>)
    requires size > 0 && 2 <= h.csid <= 63 && h.length == |payload|
    ensures var c := Chunks(h, payload, size, true);
            if payload == [] then c == []
            else ReadMessage(c + suffix, size) == Some((Message(h.csid, h.timestamp, h.typeId, h.streamId, payload), |c|))
  {
    hide Fmt0, Fmt3, ReadBasic, ReadRest, Be24, Be32, Le32;
    if payload != [] {
      var n := Min(size, |payload|);
      var rest := Chunks(h, payload[n..], size, false);
      var b := Fmt0(h) + payload[..n] + rest + suffix;
      assert Chunks(h, payload, size, true) == Fmt0(h) + payload[..n] + rest;
      HeaderStarts(h);
      Parts(Fmt0(h), payload[..n], rest, suffix);
      BasicReads(0, h.csid, b);
      HeaderFields(h, b);
      RestReads(h, payload[n..], size, suffix);
      assert payload[..n] + payload[n..] == payload;
    }
  }

  // ----- a whole session -----

  /** The chunk size after a message: a Set Chunk Size message carries the new one. */
  function SizeAfter(size: nat, typeId: byte, payload: seq<byte>): nat {
    if typeId == SET_CHUNK_SIZE && |payload| >= 4 then Be32(payload, 0) else size
  }

  datatype Outgoing = Outgoing(header: Header, payload: seq<byte>)

  predicate Sendable(ms: seq<Outgoing>, size: nat)
    decreases |ms|
  {
    && size > 0
    && (ms != [] ==>
          var h, p := ms[0].header, ms[0].payload;
          2 <= h.csid <= 63 && h.length == |p| && p != [] && Sendable(ms[1..], SizeAfter(size, h.typeId, p)))
  }

  function Session(ms: seq<Outgoing>, size: nat): seq<byte>
    requires Sendable(ms, size)
    decreases |ms|
  {
    if ms == [] then []
    else
      var h, p := ms[0].header, ms[0].payload;
      Chunks(h, p, size, true) + Session(ms[1..], SizeAfter(size, h.typeId, p))
  }

  /** No message of the session runs over the cache. */
  predicate AllFit(ms: seq<Outgoing>, size: nat)
    requires Sendable(ms, size)
    decreases |ms|
  {
    ms != [] ==>
      && Fits(ms[0].header, |ms[0].payload|, size, true, 0)
      && AllFit(ms[1..], SizeAfter(size, ms[0].header.typeId, ms[0].payload))
  }

  lemma {:induction false} SessionStep(ms: seq<Outgoing>, size: nat)
    requires ms != [] && Sendable(ms, size)
    ensures var h, p := ms[0].header, ms[0].payload;
            Session(ms, size) == Chunks(h, p, size, true) + Session(ms[1..], SizeAfter(size, h.typeId, p))
  {
    hide Chunks, SizeAfter;
  }

  lemma {:induction false} SessionEnds(ms: seq<Outgoing>, size: nat)
    requires ms == [] && Sendable(ms, size)
    ensures Session(ms, size) == []
  {
  }

  /** A peer that reads message after message and follows the chunk size. */
  function ReadSession(b: seq<byte>, size: nat): Option<seq<Message>>
    decreases |b|
  {
    if b == [] then Some([])
    else if size == 0 then None
    else
      var m := ReadMessage(b, size);
      if m.None? then None
      else
        var rest := ReadSession(b[m.value.1..], SizeAfter(size, m.value.0.typeId, m.value.0.payload));
        if rest.None? then None else Some([m.value.0] + rest.value)
  }

  function Messages(ms: seq<Outgoing>): (r: seq<Message>)
    ensures |r| == |ms|
  {
    if ms == [] then []
    else
      var h := ms[0].header;
      [Message(h.csid, h.timestamp, h.typeId, h.streamId, ms[0].payload)] + Messages(ms[1..])
  }

  /** Message after message, across changes of the chunk size, the peer reads what was sent. */
  lemma {:induction false} SessionIsRead(ms: seq<Outgoing>, size: nat)
    requires Sendable(ms, size)
    ensures ReadSession(Session(ms, size), size) == Some(Messages(ms))
    decreases |ms|
  {
    hide Chunks, ReadMessage, SizeAfter;
    if ms != [] {
      var h, p := ms[0].header, ms[0].payload;
      var next := SizeAfter(size, h.typeId, p);
      var c, rest := Chunks(h, p, size, true), Session(ms[1..], next);
      SentIsRead(h, p, size, rest);
      assert (c + rest)[|c|..] == rest;
      SessionIsRead(ms[1..], next);
      ReadFirst(c + rest, size, |c|);
    }
  }

  lemma {:induction false} ReadFirst(b: seq<byte>, size: nat, n: nat)
    requires size > 0 && ReadMessage(b, size).Some? && ReadMessage(b, size).value.1 == n
    ensures var m := ReadMessage(b, size).value.0;
            var rest := ReadSession(b[n..], SizeAfter(size, m.typeId, m.payload));
            ReadSession(b, size) == if rest.None? then None else Some([m] + rest.value)
  {
    hide ReadMessage, SizeAfter;
  }
}
