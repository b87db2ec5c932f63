/**
 Receiving an RTMP chunk stream: what one call makes of the bytes at hand, and what all calls together
 make of a stream.  Every chunk is taken to be of format 0, as the code reads it: the format is
 computed as (value & 0x03) >> 6, which is 0 for every byte.
 */
module RtmpReceive {
  import opened Basics
  import opened RtmpFormat

  const MIN_CHUNK_SIZE := 128
  /** The part of a message that has come so far on one chunk stream. */
  datatype Partial = Partial(length: uint24, bytes: seq<byte>)

  datatype Delivered = Delivered(typeId: byte, timestamp: uint32, body: seq<byte>)

  /** What is remembered between chunks. */
  datatype Intake = Intake(partials: map<nat, Partial>, chunkSize: nat) {
    predicate Valid() {
      && chunkSize >= MIN_CHUNK_SIZE
      && forall k :: k in partials ==> 0 < |partials[k].bytes| < partials[k].length
    }
  }

  datatype Outcome = Wait | Reject | Took(size: nat, intake: Intake, message: Option<Delivered>)

  /** The size is compared as an unsigned number; one that is too small is ignored. */
  function SizeAfter(size: nat, typeId: byte, body: seq<byte>): nat {
    if typeId == SET_CHUNK_SIZE && |body| >= 4 && Be32(body, 0) >= MIN_CHUNK_SIZE then Be32(body, 0) else size
  }

  function Got(s: Intake, csid: nat): seq<byte> {
    if csid in s.partials then s.partials[csid].bytes else []
  }

  /** One chunk, if all of it is there. */
  function Receive(s: Intake, b: seq<byte>): (r: Outcome)
    requires s.Valid()
    ensures r.Took? ==> 0 < r.size <= |b| && r.intake.Valid()
  {
    var head := ReadBasic(b);
    if head.None? || |b| < head.value.size + 11 then Wait
    else
      var at, csid := head.value.size, head.value.csid;
      var length := Be24(b, at + 3);
      if csid in s.partials && s.partials[csid].length != length then Reject
      else
        var extended := Be24(b, at) == EXTENDED;
        if extended && |b| < at + 15 then Wait
        else
          var time := if extended then Be32(b, at + 11) % 0x8000_0000 else Be24(b, at);
          Payload(s, b, csid, length, b[at + 6], time, at + 11 + if extended then 4 else 0)
  }

  /** The payload of the chunk, which starts at body. */
  function Payload(s: Intake, b: seq<byte>, csid: nat, length: uint24, typeId: byte, time: uint32, body: nat): (r: Outcome)
    requires s.Valid() && 0 < body <= |b|
    requires csid in s.partials ==> s.partials[csid].length == length
    ensures r.Took? ==> 0 < r.size <= |b| && r.intake.Valid()
    ensures !r.Reject?
  {
    var got := Got(s, csid);
    var n := Min(length - |got|, s.chunkSize);
    if |b| - body < n then Wait
    else
      var all := got + b[body..body + n];
      if |all| == length then
        Took(body + n, Intake(s.partials - {csid}, SizeAfter(s.chunkSize, typeId, all)), Some(Delivered(typeId, time, all)))
      else Took(body + n, s.(partials := s.partials[csid := Partial(length, all)]), None)
  }

  /** What all chunks that are there deliver, and what is left. */
  datatype Drained = Drained(intake: Intake, rest: seq<byte>, messages: seq<Delivered>)

  function Drain(s: Intake, b: seq<byte>): (r: Drained)
    requires s.Valid()
    ensures r.intake.Valid()
    decreases |b|
  {
    match Receive(s, b)
    case Took(n, s', m) =>
      var r := Drain(s', b[n..]);
      r.(messages := (if m.Some? then [m.value] else []) + r.messages)
    case _ => Drained(s, b, [])
  }

  // ----- more bytes change nothing that was decided -----

  lemma {:induction false} BasicMore(a: seq<byte>, b: seq<byte>)
    requires ReadBasic(a).Some?
    ensures ReadBasic(a + b) == ReadBasic(a)
  {
  }

  lemma {:induction false} FieldsMore(a: seq<byte>, b: seq<byte>, at: nat)
    requires at + 11 <= |a|
    ensures Be24(a + b, at) == Be24(a, at) && Be24(a + b, at + 3) == Be24(a, at + 3)
    ensures at + 15 <= |a| ==> Be32(a + b, at + 11) == Be32(a, at + 11)
  {
  }

  /** A chunk that is all there, or that is rejected, is so whatever follows. */
  lemma {:induction false} ReceiveMore(s: Intake, a: seq<byte>, b: seq<byte>)
    requires s.Valid() && !Receive(s, a).Wait?
    ensures Receive(s, a + b) == Receive(s, a)
  {
    hide ReadBasic, Be24, Be32, Payload;
    BasicMore(a, b);
    var head := ReadBasic(a).value;
    FieldsMore(a, b, head.size);
    var at := head.size;
    if !Receive(s, a).Reject? {
      var extended := Be24(a, at) == EXTENDED;
      var time := if extended then Be32(a, at + 11) % 0x8000_0000 else Be24(a, at);
      PayloadMore(s, a, b, head.csid, Be24(a, at + 3), a[at + 6], time, at + 11 + if extended then 4 else 0);
    }
  }

  lemma {:induction false} PayloadMore(s: Intake, a: seq<byte>, b: seq<byte>, csid: nat, length: uint24, typeId: byte, time: uint32, body: nat)
    requires s.Valid() && 0 < body <= |a|
    requires csid in s.partials ==> s.partials[csid].length == length
    requires !Payload(s, a, csid, length, typeId, time, body).Wait?
    ensures Payload(s, a + b, csid, length, typeId, time, body) == Payload(s, a, csid, length, typeId, time, body)
  {
    var n := Min(length - |Got(s, csid)|, s.chunkSize);
    assert (a + b)[body..body + n] == a[body..body + n];
  }

  lemma {:induction false} DrainTook(s: Intake, b: seq<byte>)
    requires s.Valid() && Receive(s, b).Took?
    ensures var r := Receive(s, b);
            var d := Drain(r.intake, b[r.size..]);
            Drain(s, b) == d.(messages := (if r.message.Some? then [r.message.value] else []) + d.messages)
  {
    hide Receive;
  }

  lemma {:induction false} DrainWaits(s: Intake, a: seq<byte>)
    requires s.Valid() && !Receive(s, a).Took?
    ensures Drain(s, a) == Drained(s, a, [])
  {
    hide Receive;
  }

  /** Draining what has come and then the rest with more is draining everything at once. */
  lemma {:induction false} DrainMore(s: Intake, a: seq<byte>, b: seq<byte>)
    requires s.Valid()
    ensures var d := Drain(s, a);
            var e := Drain(d.intake, d.rest + b);
            Drain(s, a + b) == e.(messages := d.messages + e.messages)
    decreases |a|
  {
    hide Receive, Drain;
    var r := Receive(s, a);
    if r.Took? {
      ReceiveMore(s, a, b);
      DrainTook(s, a);
      DrainTook(s, a + b);
      assert (a + b)[r.size..] == a[r.size..] + b;
      DrainMore(r.intake, a[r.size..], b);
      var d := Drain(r.intake, a[r.size..]);
      var e := Drain(d.intake, d.rest + b);
      var m := if r.message.Some? then [r.message.value] else [];
      assert m + (d.messages + e.messages) == m + d.messages + e.messages;
    } else {
      DrainWaits(s, a);
      var e := Drain(s, a + b);
      assert [] + e.messages == e.messages;
    }
  }

  /** A connection whose bytes come in pieces, drained after each of them. */
  function Feed(d: Drained, pieces: seq<seq<byte>>): Drained
    requires d.intake.Valid()
    decreases |pieces|
  {
    if pieces == [] then d
    else
      var e := Drain(d.intake, d.rest + pieces[0]);
      Feed(e.(messages := d.messages + e.messages), pieces[1..])
  }

  lemma {:induction false} DrainRest(s: Intake, b: seq<byte>)
    requires s.Valid()
    ensures var d := Drain(s, b);
            Drain(d.intake, d.rest) == Drained(d.intake, d.rest, [])
    decreases |b|
  {
    hide Receive;
    var r := Receive(s, b);
    if r.Took? {
      DrainRest(r.intake, b[r.size..]);
    }
  }

  /** However TCP cuts the stream, the same messages are delivered and the same bytes are left. */
  lemma {:induction false} CutsAgree(d: Drained, pieces: seq<seq<byte>>)
    requires d.intake.Valid() && Drain(d.intake, d.rest) == Drained(d.intake, d.rest, [])
    ensures var e := Drain(d.intake, d.rest + Flatten(pieces));
            Feed(d, pieces) == e.(messages := d.messages + e.messages)
    decreases |pieces|
  {
    hide Receive, Drain;
    if pieces == [] {
      assert d.rest + [] == d.rest && d.messages + [] == d.messages;
    } else {
      var e := Drain(d.intake, d.rest + pieces[0]);
      DrainRest(d.intake, d.rest + pieces[0]);
      CutsAgree(e.(messages := d.messages + e.messages), pieces[1..]);
      DrainMore(d.intake, d.rest + pieces[0], Flatten(pieces[1..]));
      assert d.rest + pieces[0] + Flatten(pieces[1..]) == d.rest + Flatten(pieces);
      var f := Drain(e.intake, e.rest + Flatten(pieces[1..]));
      assert d.messages + e.messages + f.messages == d.messages + (e.messages + f.messages);
    }
  }

  // ----- messages -----

  function BasicBytes(csid: nat): (b: seq<byte>)
    requires 2 <= csid < 0x1_0000 + 64
    ensures 1 <= |b| <= 3
  {
    if csid < 64 then [csid]
    else if csid < 0x100 + 64 then [0, csid - 64]
    else [1, (csid - 64) % 0x100, (csid - 64) / 0x100]
  }

  /** A chunk of format 0: the header of the message and a piece of its body. */
  function Single(h: Header, body: seq<byte>): seq<byte>
    requires 2 <= h.csid < 0x1_0000 + 64
  {
    BasicBytes(h.csid) + Bytes24(Min(h.timestamp, EXTENDED)) + Bytes24(h.length) + [h.typeId] + LowFirst(h.streamId)
    + Extension(h.timestamp) + body
  }

  lemma {:induction false} BasicReads(csid: nat, suffix: seq<byte>)
    requires 2 <= csid < 0x1_0000 + 64
    ensures ReadBasic(BasicBytes(csid) + suffix) == Some(BasicHeader(0, csid, |BasicBytes(csid)|))
  {
    var b := BasicBytes(csid) + suffix;
    assert forall k :: 0 <= k < |BasicBytes(csid)| ==> b[k] == BasicBytes(csid)[k];
  }

  lemma {:induction false} SingleFields(h: Header, body: seq<byte>, suffix: seq<byte>)
    requires 2 <= h.csid < 0x1_0000 + 64
    ensures var b, at := Single(h, body) + suffix, |BasicBytes(h.csid)|;
            && |b| >= at + 11 && ReadBasic(b) == Some(BasicHeader(0, h.csid, at))
            && Be24(b, at) == Min(h.timestamp, EXTENDED) && Be24(b, at + 3) == h.length && b[at + 6] == h.typeId
            && (h.timestamp >= EXTENDED ==> |b| >= at + 15 && Be32(b, at + 11) == h.timestamp)
            && var start := at + 11 + |Extension(h.timestamp)|;
               |Single(h, body)| == start + |body| && b[start..start + |body|] == body
  {
    hide BasicBytes, Bytes24, LowFirst, Bytes32, ReadBasic, Be24, Be32;
    var b, at := Single(h, body) + suffix, |BasicBytes(h.csid)|;
    var x, t, l, i, e :=
      BasicBytes(h.csid), Bytes24(Min(h.timestamp, EXTENDED)), Bytes24(h.length), LowFirst(h.streamId), Extension(h.timestamp);
    assert b == x + (t + l + [h.typeId] + i + e + body + suffix);
    BasicReads(h.csid, t + l + [h.typeId] + i + e + body + suffix);
    assert b[at..at + 3] == t;
    Be24Inverts(Min(h.timestamp, EXTENDED), b, at);
    assert b[at + 3..at + 6] == l;
    Be24Inverts(h.length, b, at + 3);
    if h.timestamp >= EXTENDED {
      assert b[at + 11..at + 15] == e;
      Be32Inverts(h.timestamp, b, at + 11);
    }
  }

  /** Extended timestamps keep 31 bits. */
  function TimeSeen(timestamp: uint32): uint32 {
    if timestamp >= EXTENDED then timestamp % 0x8000_0000 else timestamp
  }

  /** Of the message on this chunk stream, exactly the first k bytes have come. */
  predicate Has(s: Intake, h: Header, body: seq<byte>, k: nat) {
    && h.length == |body| && (k < |body| || k == 0 == |body|)
    && if k == 0 then h.csid !in s.partials else h.csid in s.partials && s.partials[h.csid] == Partial(|body|, body[..k])
  }

  /** The next piece of a message is taken; the message is delivered exactly with its last piece. */
  lemma {:induction false} PieceReceived(s: Intake, h: Header, body: seq<byte>, k: nat, n: nat, suffix: seq<byte>)
    requires s.Valid() && 2 <= h.csid < 0x1_0000 + 64 && Has(s, h, body, k) && n == Min(|body| - k, s.chunkSize)
    ensures var c := Single(h, body[k..k + n]);
            Receive(s, c + suffix) ==
            if k + n == |body| then
              Took(|c|, Intake(s.partials - {h.csid}, SizeAfter(s.chunkSize, h.typeId, body)),
                   Some(Delivered(h.typeId, TimeSeen(h.timestamp), body)))
            else Took(|c|, s.(partials := s.partials[h.csid := Partial(|body|, body[..k + n])]), None)
  {
    hide ReadBasic, Be24, Be32, Single, SizeAfter, BasicBytes;
    SingleFields(h, body[k..k + n], suffix);
    assert Got(s, h.csid) == body[..k];
    assert body[..k] + body[k..k + n] == body[..k + n];
    assert k + n == |body| ==> body[..k + n] == body;
  }

  /** A message from its k-th byte on, cut into chunks of format 0. */
  function ChunksOf(h: Header, body: seq<byte>, k: nat, size: nat): seq<byte>
    requires 2 <= h.csid < 0x1_0000 + 64 && k <= |body| && size > 0
    decreases |body| - k
  {
    var n := Min(|body| - k, size);
    Single(h, body[k..k + n]) + if k + n == |body| then [] else ChunksOf(h, body, k + n, size)
  }

  /** All pieces of a message deliver it once, as it was cut. */
  lemma {:induction false} MessageDrained(s: Intake, h: Header, body: seq<byte>, k: nat, suffix: seq<byte>)
    requires s.Valid() && 2 <= h.csid < 0x1_0000 + 64 && Has(s, h, body, k)
    ensures var e := Drain(Intake(s.partials - {h.csid}, SizeAfter(s.chunkSize, h.typeId, body)), suffix);
            Drain(s, ChunksOf(h, body, k, s.chunkSize) + suffix) ==
            e.(messages := [Delivered(h.typeId, TimeSeen(h.timestamp), body)] + e.messages)
    decreases |body| - k
  {
    hide Receive, Single, SizeAfter, Drain, TimeSeen;
    var n := Min(|body| - k, s.chunkSize);
    var c := Single(h, body[k..k + n]);
    var b := ChunksOf(h, body, k, s.chunkSize) + suffix;
    var rest := if k + n == |body| then suffix else ChunksOf(h, body, k + n, s.chunkSize) + suffix;
    assert b == c + rest;
    PieceReceived(s, h, body, k, n, rest);
    DrainTook(s, b);
    assert b[|c|..] == rest;
    if k + n < |body| {
      var s' := s.(partials := s.partials[h.csid := Partial(|body|, body[..k + n])]);
      MessageDrained(s', h, body, k + n, suffix);
      assert s'.partials - {h.csid} == s.partials - {h.csid};
      var r := Drain(s', rest);
      assert [] + r.messages == r.messages;
    }
  }

  datatype Incoming = Incoming(header: Header, body: seq<byte>)

  predicate Headed(ms: seq<Incoming>) {
    forall i :: 0 <= i < |ms| ==> 2 <= ms[i].header.csid < 0x1_0000 + 64 && ms[i].header.length == |ms[i].body|
  }

  /** The messages one after the other, each cut by the chunk size in force. */
  function Stream(ms: seq<Incoming>, size: nat): seq<byte>
    requires Headed(ms) && size >= MIN_CHUNK_SIZE
    decreases |ms|
  {
    if ms == [] then []
    else
      var h, body := ms[0].header, ms[0].body;
      ChunksOf(h, body, 0, size) + Stream(ms[1..], SizeAfter(size, h.typeId, body))
  }

  function Expected(ms: seq<Incoming>): seq<Delivered> {
    if ms == [] then []
    else [Delivered(ms[0].header.typeId, TimeSeen(ms[0].header.timestamp), ms[0].body)] + Expected(ms[1..])
  }

  lemma {:induction false} StreamDrained(s: Intake, ms: seq<Incoming>)
    requires s.Valid() && s.partials == map[] && Headed(ms)
    ensures var d := Drain(s, Stream(ms, s.chunkSize));
            d.rest == [] && d.messages == Expected(ms) && d.intake.partials == map[]
    decreases |ms|
  {
    hide Drain, ChunksOf, SizeAfter, TimeSeen;
    if ms == [] {
      DrainNothing(s);
    } else {
      var h, body := ms[0].header, ms[0].body;
      var size := SizeAfter(s.chunkSize, h.typeId, body);
      SizeStays(s.chunkSize, h.typeId, body);
      assert s.partials - {h.csid} == map[];
      MessageDrained(s, h, body, 0, Stream(ms[1..], size));
      StreamDrained(Intake(map[], size), ms[1..]);
    }
  }

  lemma {:induction false} SizeStays(size: nat, typeId: byte, body: seq<byte>)
    requires size >= MIN_CHUNK_SIZE
    ensures SizeAfter(size, typeId, body) >= MIN_CHUNK_SIZE
  {
  }

  lemma {:induction false} NothingYet(s: Intake)
    requires s.Valid()
    ensures Receive(s, []) == Wait
  {
  }

  /**
   For every stream of messages in chunks of format 0 and every way it is cut, exactly its messages are
   delivered, in order, with their types, timestamps and bodies, across changes of the chunk size.
   */
  lemma {:induction false} StreamDelivered(s: Intake, ms: seq<Incoming>, pieces: seq<seq<byte>>)
    requires s.Valid() && s.partials == map[] && Headed(ms)
    requires Flatten(pieces) == Stream(ms, s.chunkSize)
    ensures var d := Feed(Drained(s, [], []), pieces);
            d.rest == [] && d.messages == Expected(ms) && d.intake.partials == map[]
  {
    hide Drain, Receive, Feed, Stream, Expected, Flatten;
    DrainNothing(s);
    CutsAgree(Drained(s, [], []), pieces);
    assert [] + Flatten(pieces) == Stream(ms, s.chunkSize);
    StreamDrained(s, ms);
    assert [] + Expected(ms) == Expected(ms);
  }

  // ----- chunk streams that take turns -----

  /** A message of which k bytes have been sent. */
  datatype Flight = Flight(header: Header, body: seq<byte>, k: nat)

  /** One chunk: the first of a new message, or the next one of the message on a chunk stream. */
  datatype Turn = Begin(header: Header, body: seq<byte>) | More(csid: nat)

  /** The messages that are under way, by chunk stream, and the chunk size. */
  datatype Outgo = Outgo(flights: map<nat, Flight>, size: nat) {
    predicate Allows(t: Turn) {
      if t.Begin? then 2 <= t.header.csid < 0x1_0000 + 64 && t.header.length == |t.body| && t.header.csid !in flights
      else t.csid in flights
    }

    function Next(t: Turn): Flight
      requires Allows(t)
    {
      if t.Begin? then Flight(t.header, t.body, 0) else flights[t.csid]
    }

    predicate Valid() {
      && size >= MIN_CHUNK_SIZE
      && forall c :: c in flights ==>
           var f := flights[c];
           2 <= f.header.csid == c < 0x1_0000 + 64 && f.header.length == |f.body| && 0 < f.k < |f.body|
    }
  }

  /** The end of the next piece of a message. */
  function PieceEnd(f: Flight, size: nat): nat
    requires f.k <= |f.body|
  {
    f.k + Min(|f.body| - f.k, size)
  }

  function AfterTurn(o: Outgo, t: Turn): (r: Outgo)
    requires o.Valid() && o.Allows(t)
    ensures r.Valid()
  {
    var f := o.Next(t);
    var end := PieceEnd(f, o.size);
    if end == |f.body| then Outgo(o.flights - {f.header.csid}, SizeAfter(o.size, f.header.typeId, f.body))
    else o.(flights := o.flights[f.header.csid := f.(k := end)])
  }

  /** Chunk streams take turns in any order. */
  predicate Playable(o: Outgo, ts: seq<Turn>)
    requires o.Valid()
    decreases |ts|
  {
    ts != [] ==> o.Allows(ts[0]) && Playable(AfterTurn(o, ts[0]), ts[1..])
  }

  function Interleaved(o: Outgo, ts: seq<Turn>): seq<byte>
    requires o.Valid() && Playable(o, ts)
    decreases |ts|
  {
    if ts == [] then []
    else
      var f := o.Next(ts[0]);
      Single(f.header, f.body[f.k..PieceEnd(f, o.size)]) + Interleaved(AfterTurn(o, ts[0]), ts[1..])
  }

  /** The messages in the order in which their last chunks are sent, and what is then under way. */
  function Completed(o: Outgo, ts: seq<Turn>): seq<Delivered>
    requires o.Valid() && Playable(o, ts)
    decreases |ts|
  {
    if ts == [] then []
    else
      var f := o.Next(ts[0]);
      (if PieceEnd(f, o.size) == |f.body| then [Delivered(f.header.typeId, TimeSeen(f.header.timestamp), f.body)] else [])
      + Completed(AfterTurn(o, ts[0]), ts[1..])
  }

  function AfterTurns(o: Outgo, ts: seq<Turn>): Outgo
    requires o.Valid() && Playable(o, ts)
    decreases |ts|
  {
    if ts == [] then o else AfterTurns(AfterTurn(o, ts[0]), ts[1..])
  }

  /** The receiver has exactly what was sent of every message under way. */
  predicate Mirrors(s: Intake, o: Outgo) {
    && s.chunkSize == o.size && s.partials.Keys == o.flights.Keys
    && forall c :: c in o.flights ==>
         o.flights[c].k <= |o.flights[c].body| < 0x100_0000
         && s.partials[c] == Partial(|o.flights[c].body|, o.flights[c].body[..o.flights[c].k])
  }

  /** One chunk keeps the two ends in step, and delivers a message exactly when it was the last of it. */
  lemma {:induction false} TurnReceived(s: Intake, o: Outgo, t: Turn, suffix: seq<byte>)
    requires s.Valid() && o.Valid() && o.Allows(t) && Mirrors(s, o)
    ensures var f := o.Next(t);
            var end := PieceEnd(f, o.size);
            var c := Single(f.header, f.body[f.k..end]);
            var r := Receive(s, c + suffix);
            && r.Took? && r.size == |c| && Mirrors(r.intake, AfterTurn(o, t))
            && r.message == if end == |f.body| then Some(Delivered(f.header.typeId, TimeSeen(f.header.timestamp), f.body)) else None
  {
    hide Receive, Single, SizeAfter, TimeSeen;
    var f := o.Next(t);
    PieceReceived(s, f.header, f.body, f.k, PieceEnd(f, o.size) - f.k, suffix);
  }

  lemma {:induction false} TurnsDrained(s: Intake, o: Outgo, ts: seq<Turn>)
    requires s.Valid() && o.Valid() && Playable(o, ts) && Mirrors(s, o)
    ensures var d := Drain(s, Interleaved(o, ts));
            d.rest == [] && d.messages == Completed(o, ts) && Mirrors(d.intake, AfterTurns(o, ts))
    decreases |ts|
  {
    hide Drain, Receive, Single, SizeAfter, TimeSeen, Mirrors;
    if ts == [] {
      DrainNothing(s);
    } else {
      var f := o.Next(ts[0]);
      var c := Single(f.header, f.body[f.k..PieceEnd(f, o.size)]);
      var rest := Interleaved(AfterTurn(o, ts[0]), ts[1..]);
      TurnReceived(s, o, ts[0], rest);
      DrainTook(s, c + rest);
      assert (c + rest)[|c|..] == rest;
      TurnsDrained(Receive(s, c + rest).intake, AfterTurn(o, ts[0]), ts[1..]);
    }
  }

  /**
   However the chunk streams take turns, and however TCP cuts the bytes, exactly the messages whose last
   chunk was sent are delivered, in that order, and the rest is as far as it was sent.
   */
  lemma {:induction false} TurnsDelivered(s: Intake, o: Outgo, ts: seq<Turn>, pieces: seq<seq<byte>>)
    requires s.Valid() && o.Valid() && Playable(o, ts) && Mirrors(s, o)
    requires Flatten(pieces) == Interleaved(o, ts)
    ensures var d := Feed(Drained(s, [], []), pieces);
            d.rest == [] && d.messages == Completed(o, ts) && Mirrors(d.intake, AfterTurns(o, ts))
  {
    hide Drain, Receive, Feed, Interleaved, Completed, Flatten, Mirrors;
    DrainNothing(s);
    CutsAgree(Drained(s, [], []), pieces);
    assert [] + Flatten(pieces) == Interleaved(o, ts);
    TurnsDrained(s, o, ts);
    assert [] + Completed(o, ts) == Completed(o, ts);
  }

  lemma {:induction false} DrainNothing(s: Intake)
    requires s.Valid()
    ensures Drain(s, []) == Drained(s, [], [])
  {
    NothingYet(s);
  }

  /** An incomplete chunk delivers nothing, and the retry with the rest sees what one call would have seen. */
  lemma {:induction false} RetryUnaffected(s: Intake, a: seq<byte>, b: seq<byte>)
    requires s.Valid() && Receive(s, a).Wait?
    ensures Drain(s, a) == Drained(s, a, [])
    ensures Feed(Drained(s, [], []), [a, b]) == Drain(s, a + b)
  {
    hide Receive, Drain, Feed;
    DrainNothing(s);
    CutsAgree(Drained(s, [], []), [a, b]);
    TwoPieces(a, b);
    DrainWaits(s, a);
    var e := Drain(s, [] + Flatten([a, b]));
    assert [] + e.messages == e.messages;
  }

  lemma {:induction false} TwoPieces(a: seq<byte>, b: seq<byte>)
    ensures [] + Flatten([a, b]) == a + b
  {
    assert [a, b][1..] == [b] && [b][1..] == [];
    assert Flatten([b]) == b + Flatten([]);
  }
}
