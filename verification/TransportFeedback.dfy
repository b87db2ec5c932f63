/**
 The transport-wide congestion feedback encoder: a queue of packet records becomes one message of
 status chunks and receive deltas.
 */
module TransportFeedback {
  import opened Basics
  import opened FeedbackFormat
  import opened FeedbackChunks

  /** One transmitted packet; a timestamp of 0 means that it has not arrived. */
  datatype Stat = Stat(transportSeqNum: uint32, timestamp: uint64)

  /** The queue of records the encoder consumes. */
  class StatQueue {
    var items: seq<Stat>

    method PopHead() returns (head: Option<Stat>)
      modifies this
      ensures head == if old(items) == [] then None else Some(old(items)[0])
      ensures items == if old(items) == [] then [] else old(items)[1..]
    {
      if items == [] {
        return None;
      }
      head := Some(items[0]);
      items := items[1..];
    }
  }

  // ----- what the message has to say -----

  /** Signed number of 250 microsecond ticks from one time to another. */
  function Ticks(now: int, before: int): int {
    if now > before then (now - before) / 250 else -((before - now) / 250)
  }

  /** The same as the encoder computes it, in 32-bit integers. */
  function Delta(now: uint64, before: uint64): int32 {
    if now > before then ToInt32((now - before) / 250)
    else ToInt32(-(ToInt32((before - now) / 250) as int))
  }

  /** The last arrival before the given one, or None if there has been no arrival. */
  function LastArrival(stats: seq<Stat>): Option<uint64> {
    if stats == [] then None
    else
      var last := stats[|stats| - 1].timestamp;
      if last != 0 then Some(last) else LastArrival(stats[..|stats| - 1])
  }

  /** Reference time, in units of 64 milliseconds, taken from the first arrival. */
  function Reference(stats: seq<Stat>): nat {
    if stats == [] then 0
    else if stats[0].timestamp != 0 then stats[0].timestamp as int / 64000
    else Reference(stats[1..])
  }

  /** The time the next arrival is measured from. */
  function MeasuredFrom(before: seq<Stat>, now: uint64): uint64 {
    match LastArrival(before)
    case Some(t) => t
    case None => now as int / 64000 * 64000
  }

  /** What is observed of the i-th packet: nothing, or its delta. */
  function ObservedAt(stats: seq<Stat>, i: nat): Option<int32>
    requires i < |stats|
  {
    var now := stats[i].timestamp;
    if now == 0 then None else Some(Delta(now, MeasuredFrom(stats[..i], now)))
  }

  function Observed(stats: seq<Stat>): (s: seq<Option<int32>>)
    ensures |s| == |stats|
  {
    seq(|stats|, i requires 0 <= i < |stats| => ObservedAt(stats, i))
  }

  function StatusOf(o: Option<int32>): Status {
    match o
    case None => NOT_RECEIVED
    case Some(delta) => if delta < 0 || delta > 255 then LARGE_OR_NEGATIVE_DELTA else SMALL_DELTA
  }

  function Clamp(delta: int32): int {
    if -0x8000 <= delta < 0x8000 then delta else if delta > 0 then 0x7FFF else -0x8000
  }

  function ArrivalOf(o: Option<int32>): Arrival {
    match o
    case None => Missing
    case Some(delta) => Arrived(Clamp(delta))
  }

  function Statuses(obs: seq<Option<int32>>): (s: seq<Status>)
    ensures |s| == |obs|
  {
    seq(|obs|, i requires 0 <= i < |obs| => StatusOf(obs[i]))
  }

  function Arrivals(obs: seq<Option<int32>>): (s: seq<Arrival>)
    ensures |s| == |obs|
  {
    seq(|obs|, i requires 0 <= i < |obs| => ArrivalOf(obs[i]))
  }

  /** The feedback a reader should get for these records. */
  function Expected(stats: seq<Stat>, ssrc: uint32, media: uint32, packetCount: byte): Feedback
    requires 0 < |stats| < 0x1_0000
  {
    Feedback(ssrc, media, stats[0].transportSeqNum as int % 0x1_0000, |stats|,
             Reference(stats) % 0x80_0000, packetCount, Arrivals(Observed(stats)))
  }

  // ----- receive deltas -----

  function Deltas(obs: seq<Option<int32>>): seq<int32> {
    if obs == [] then []
    else
      var tail := Deltas(obs[1..]);
      if obs[0].Some? then [obs[0].value] + tail else tail
  }

  function DeltaBytes(deltas: seq<int32>): seq<byte> {
    if deltas == [] then [] else OneDelta(deltas[0]) + DeltaBytes(deltas[1..])
  }

  function OneDelta(delta: int32): seq<byte> {
    if delta < 0 || delta > 255 then
      var v := Clamp(delta) % 0x1_0000;
      [v / 0x100, v % 0x100]
    else [delta]
  }

  lemma {:induction false} DeltasSnoc(obs: seq<Option<int32>>, o: Option<int32>)
    ensures Deltas(obs + [o]) == Deltas(obs) + if o.Some? then [o.value] else []
  {
    if obs == [] {
      assert obs + [o] == [o];
      assert [o][1..] == [];
    } else {
      assert (obs + [o])[1..] == obs[1..] + [o];
      assert (obs + [o])[0] == obs[0];
      DeltasSnoc(obs[1..], o);
    }
  }

  lemma {:induction false} DeltaBytesSize(deltas: seq<int32>)
    ensures |DeltaBytes(deltas)| <= 2 * |deltas|
  {
    if deltas != [] {
      DeltaBytesSize(deltas[1..]);
    }
  }

  lemma {:induction false} DeltasSize(obs: seq<Option<int32>>)
    ensures |Deltas(obs)| <= |obs|
  {
    if obs != [] {
      DeltasSize(obs[1..]);
    }
  }

  lemma {:induction false} OneDeltaReads(delta: int32, rest: seq<byte>)
    ensures var b := OneDelta(delta) + rest;
            var s := StatusOf(Some(delta));
            && (s == SMALL_DELTA ==> |OneDelta(delta)| == 1 && b[0] == Clamp(delta))
            && (s == LARGE_OR_NEGATIVE_DELTA ==> |OneDelta(delta)| == 2 && ToInt16(Be16(b, 0)) == Clamp(delta))
            && s != NOT_RECEIVED && s != RESERVED
            && b[|OneDelta(delta)|..] == rest
  {
    var b := OneDelta(delta) + rest;
    if delta < 0 || delta > 255 {
      assert Be16(b, 0) == Clamp(delta) % 0x1_0000;
    }
  }

  /** Deltas stay aligned with statuses: none, one or two bytes each. */
  lemma {:induction false} ParseDeltasReads(obs: seq<Option<int32>>, padding: seq<byte>)
    ensures ParseDeltas(Statuses(obs), DeltaBytes(Deltas(obs)) + padding) == Some((Arrivals(obs), padding))
  {
    hide OneDelta, ToInt16, Clamp;
    if obs == [] {
      assert DeltaBytes(Deltas(obs)) + padding == padding;
    } else {
      var b, tail := DeltaBytes(Deltas(obs)) + padding, DeltaBytes(Deltas(obs[1..])) + padding;
      assert Statuses(obs)[1..] == Statuses(obs[1..]);
      assert Arrivals(obs) == [ArrivalOf(obs[0])] + Arrivals(obs[1..]);
      ParseDeltasReads(obs[1..], padding);
      match obs[0] {
        case None =>
          assert b[0..] == b == tail;
        case Some(delta) =>
          var deltas := Deltas(obs);
          assert deltas[0] == delta && deltas[1..] == Deltas(obs[1..]);
          assert b == OneDelta(delta) + tail;
          OneDeltaReads(delta, tail);
      }
    }
  }

  // ----- the message -----

  function Word16(x: int): seq<byte> {
    [x / 0x100 % 0x100, x % 0x100]
  }

  function Word32(x: int): seq<byte> {
    Word16(x / 0x1_0000) + Word16(x)
  }

  /** The first sixteen bytes: header, ssrcs, base sequence number and status count. */
  function FixedPart(length: int, ssrc: uint32, media: uint32, baseSeq: int, count: int): (b: seq<byte>)
    ensures |b| == 16
  {
    [0x8F, 205] + Word16(length) + Word32(ssrc) + Word32(media) + Word16(baseSeq) + Word16(count)
  }

  /** Storing the length field last only changes bytes two and three. */
  lemma {:induction false} FixedLength(fixed: seq<byte>, length: int, ssrc: uint32, media: uint32, baseSeq: int, count: int)
    requires fixed == FixedPart(0, ssrc, media, baseSeq, count)
    ensures fixed[3 := length % 0x100][2 := length / 0x100 % 0x100]
            == FixedPart(length, ssrc, media, baseSeq, count)
  {
  }

  /** The sixteen bytes one by one. */
  lemma {:induction false} FixedBytes(length: int, ssrc: uint32, media: uint32, baseSeq: int, count: int)
    ensures FixedPart(length, ssrc, media, baseSeq, count) ==
            [0x8F, 205, length / 0x100 % 0x100, length % 0x100,
             ssrc as int / 0x1_0000 / 0x100 % 0x100, ssrc as int / 0x1_0000 % 0x100, ssrc as int / 0x100 % 0x100, ssrc as int % 0x100,
             media as int / 0x1_0000 / 0x100 % 0x100, media as int / 0x1_0000 % 0x100, media as int / 0x100 % 0x100, media as int % 0x100,
             baseSeq / 0x100 % 0x100, baseSeq % 0x100, count / 0x100 % 0x100, count % 0x100]
  {
  }

  lemma {:induction false} TwoBytes(x: int)
    ensures x / 0x100 % 0x100 * 0x100 + x % 0x100 == x % 0x1_0000
  {
    HighByte(x);
    DivFacts(x % 0x1_0000, 0x100);
  }

  lemma {:induction false} HighByte(x: int)
    ensures x / 0x100 % 0x100 == x % 0x1_0000 / 0x100
    ensures x % 0x100 == x % 0x1_0000 % 0x100
  {
    var q, r := x / 0x1_0000, x % 0x1_0000;
    var h := r / 0x100;
    DivFacts(r, 0x100);
    DivIs(x, 0x100, q * 0x100 + h);
    DivIs(x / 0x100, 0x100, q);
  }

  lemma {:induction false} WordOf(x: uint32)
    ensures x as int / 0x1_0000 / 0x100 % 0x100 * 0x100_0000 + x as int / 0x1_0000 % 0x100 * 0x1_0000
            + x as int / 0x100 % 0x100 * 0x100 + x as int % 0x100 == x
  {
    FourBytes(x);
    NextByte(x, 0x1_0000);
  }

  lemma {:induction false} FixedPartReads(b: seq<byte>, length: int, ssrc: uint32, media: uint32, baseSeq: int, count: int)
    requires |b| >= 16 && b[..16] == FixedPart(length, ssrc, media, baseSeq, count)
    ensures b[0] == 0x8F && b[1] == 205 && Be16(b, 2) == length % 0x1_0000
    ensures Be32(b, 4) == ssrc && Be32(b, 8) == media
    ensures Be16(b, 12) == baseSeq % 0x1_0000 && Be16(b, 14) == count % 0x1_0000
  {
    var f := FixedPart(length, ssrc, media, baseSeq, count);
    assert forall i :: 0 <= i < 16 ==> b[i] == b[..16][i] == f[i];
    FixedBytes(length, ssrc, media, baseSeq, count);
    hide FixedPart;
    TwoBytes(length);
    TwoBytes(baseSeq);
    TwoBytes(count);
    WordOf(ssrc);
    WordOf(media);
  }

  function ReferenceBytes(reference: int): seq<byte> {
    var r := reference % 0x80_0000;
    [r / 0x1_0000, r / 0x100 % 0x100, r % 0x100]
  }

  /** A message with the right parts in the right places is read as the expected feedback. */
  lemma {:induction false} MessageReads(stats: seq<Stat>, b: seq<byte>, words: seq<uint16>, padding: seq<byte>,
                     ssrc: uint32, media: uint32, packetCount: byte)
    requires 0 < |stats| < 0x1_0000
    requires |b| % 4 == 0 && 20 <= |b| < 0x4_0000
    requires b[..16] == FixedPart(|b| / 4 - 1, ssrc, media, stats[0].transportSeqNum as int % 0x1_0000, |stats|)
    requires b[16..19] == ReferenceBytes(Reference(stats)) && b[19] == packetCount
    requires b[20..] == WordBytes(words) + (DeltaBytes(Deltas(Observed(stats))) + padding)
    requires Statuses(Observed(stats)) <= AllSymbols(words)
    requires words != [] && |AllSymbols(words[..|words| - 1])| < |stats|
    requires |padding| < 4 && forall i :: 0 <= i < |padding| ==> padding[i] == 0
    ensures ParseFeedback(b) == Some(Expected(stats, ssrc, media, packetCount))
  {
    hide FixedPart, ReferenceBytes, AllSymbols, WordBytes, DeltaBytes, Deltas, Observed, Reference, Be16, Be32,
         Statuses, Arrivals, ParseStatuses, ParseDeltas;
    var obs := Observed(stats);
    FixedPartReads(b, |b| / 4 - 1, ssrc, media, stats[0].transportSeqNum as int % 0x1_0000, |stats|);
    ReferenceReads(b, Reference(stats));
    ParseStatusesReads(words, DeltaBytes(Deltas(obs)) + padding, |stats|);
    assert AllSymbols(words)[..|stats|] == Statuses(obs);
    ParseDeltasReads(obs, padding);
  }

  lemma {:induction false} SomeWord(words: seq<uint16>)
    ensures words == [] ==> AllSymbols(words) == []
  {
  }

  lemma {:induction false} ReferenceReads(b: seq<byte>, reference: int)
    requires |b| >= 19 && b[16..19] == ReferenceBytes(reference)
    ensures b[16] as int * 0x1_0000 + b[17] as int * 0x100 + b[18] as int == reference % 0x80_0000
  {
    assert forall i :: 0 <= i < 3 ==> b[16 + i] == b[16..19][i];
  }

  lemma {:induction false} LastArrivalNone(stats: seq<Stat>)
    ensures LastArrival(stats).None? <==> forall i :: 0 <= i < |stats| ==> stats[i].timestamp == 0
    ensures LastArrival(stats).None? ==> Reference(stats) == 0
  {
    if stats != [] {
      LastArrivalNone(stats[..|stats| - 1]);
      if LastArrival(stats).None? {
        ReferenceSnoc(stats[..|stats| - 1], stats[|stats| - 1]);
        assert stats == stats[..|stats| - 1] + [stats[|stats| - 1]];
      }
    }
  }

  lemma {:induction false} ReferenceSnoc(stats: seq<Stat>, stat: Stat)
    ensures Reference(stats + [stat]) ==
            if forall i :: 0 <= i < |stats| ==> stats[i].timestamp == 0
            then stat.timestamp as int / 64000 else Reference(stats)
  {
    if stats == [] {
      assert stats + [stat] == [stat];
      assert [stat][1..] == [];
    } else {
      assert (stats + [stat])[1..] == stats[1..] + [stat];
      assert (stats + [stat])[0] == stats[0];
      ReferenceSnoc(stats[1..], stat);
    }
  }

  lemma {:induction false} ObservedSnoc(stats: seq<Stat>, i: nat)
    requires i < |stats|
    ensures Observed(stats[..i + 1]) == Observed(stats[..i]) + [ObservedAt(stats, i)]
    ensures LastArrival(stats[..i + 1]) ==
            if stats[i].timestamp != 0 then Some(stats[i].timestamp) else LastArrival(stats[..i])
  {
    var t := stats[..i + 1];
    assert t[..i] == stats[..i];
    assert forall j :: 0 <= j <= i ==> t[..j] == stats[..j];
    assert forall j :: 0 <= j < i ==> stats[..i][..j] == stats[..j];
  }

  // ----- the encoder -----

  /** Clears the packet and writes its first twelve bytes, without the length. */
  method WriteSsrcs(packet: array<byte>, ssrc: uint32, media: uint32)
    requires packet.Length >= 20
    modifies packet
    ensures packet[..12] ==
            [0x8F, 205, 0, 0,
             ssrc as int / 0x1_0000 / 0x100 % 0x100, ssrc as int / 0x1_0000 % 0x100, ssrc as int / 0x100 % 0x100, ssrc as int % 0x100,
             media as int / 0x1_0000 / 0x100 % 0x100, media as int / 0x1_0000 % 0x100, media as int / 0x100 % 0x100, media as int % 0x100]
    ensures forall i :: 12 <= i < packet.Length ==> packet[i] == 0
  {
    forall i | 0 <= i < packet.Length {
      packet[i] := 0;
    }
    packet[0], packet[1] := 0x8F, 205;
    Set2(packet, 4, ssrc as int / 0x1_0000);
    Set2(packet, 6, ssrc);
    Set2(packet, 8, media as int / 0x1_0000);
    Set2(packet, 10, media);
  }

  method WriteFixed(packet: array<byte>, ssrc: uint32, media: uint32, baseSeq: int, count: int, packetCount: byte)
    requires packet.Length >= 20
    modifies packet
    ensures packet[..16] == FixedPart(0, ssrc, media, baseSeq, count)
    ensures packet[16..20] == [0, 0, 0, packetCount]
  {
    hide FixedPart;
    WriteSsrcs(packet, ssrc, media);
    ghost var head := packet[..12];
    Set2(packet, 12, baseSeq);
    Set2(packet, 14, count);
    Set1(packet, 19, packetCount);
    FixedBytes(0, ssrc, media, baseSeq, count);
    assert packet[..12] == head;
    assert packet[..16] == head + [packet[12], packet[13], packet[14], packet[15]];
    assert packet[16] == 0 && packet[17] == 0 && packet[18] == 0 && packet[19] == packetCount;
  }

  method WriteDelta(packet: array<byte>, at: nat, delta: int32) returns (next: nat)
    requires at + 2 <= packet.Length
    modifies packet
    ensures at <= next <= at + 2
    ensures packet[..at] == old(packet[..at])
    ensures packet[at..next] == OneDelta(delta)
  {
    if delta < 0 || delta > 255 {
      var reported := ToInt16(delta);
      if reported != delta {
        reported := if delta > 0 then 0x7FFF else -0x8000;
      }
      Set2(packet, at, reported);
      next := at + 2;
      HighByte(reported);
    } else {
      Set1(packet, at, delta);
      next := at + 1;
    }
  }

  /** Writes the queued deltas, each in as many bytes as its status announces. */
  method WriteDeltas(packet: array<byte>, start: nat, queue: seq<int32>) returns (len: nat)
    requires start + 2 * |queue| <= packet.Length
    modifies packet
    ensures start <= len <= start + 2 * |queue|
    ensures packet[..start] == old(packet[..start])
    ensures packet[start..len] == DeltaBytes(queue)
  {
    hide OneDelta;
    len := start;
    var deltas := queue;
    while deltas != []
      invariant start <= len && len + 2 * |deltas| <= start + 2 * |queue|
      invariant packet[..start] == old(packet[..start])
      invariant packet[start..len] + DeltaBytes(deltas) == DeltaBytes(queue)
      decreases |deltas|
    {
      ghost var before, done := packet[..len], packet[start..len];
      var next := WriteDelta(packet, len, deltas[0]);
      SliceOfSlice(packet[..], 0, len, start, len);
      SliceOfSlice(packet[..], 0, len, 0, start);
      assert packet[0..len] == packet[..len] == before;
      assert before[start..len] == done && before[0..start] == before[..start];
      SplitSlice(packet[..], start, len, next);
      assert done + (OneDelta(deltas[0]) + DeltaBytes(deltas[1..])) == done + OneDelta(deltas[0]) + DeltaBytes(deltas[1..]);
      deltas, len := deltas[1..], next;
    }
  }

  method WritePadding(packet: array<byte>, start: nat) returns (len: nat)
    requires start + 3 <= packet.Length
    modifies packet
    ensures start <= len < start + 4 && len % 4 == 0
    ensures packet[..start] == old(packet[..start])
    ensures forall i :: start <= i < len ==> packet[i] == 0
  {
    len := start;
    while len % 4 != 0
      invariant start <= len <= (start + 3) / 4 * 4
      invariant packet[..start] == old(packet[..start])
      invariant forall i :: start <= i < len ==> packet[i] == 0
      decreases start + 4 - len
    {
      Set1(packet, len, 0);
      len := len + 1;
    }
  }

  /** Only 23 bits of the reference time are used. */
  method WriteReference(packet: array<byte>, reference: int)
    requires packet.Length >= 20
    modifies packet
    ensures packet[16..19] == ReferenceBytes(reference)
    ensures packet[..16] == old(packet[..16]) && packet[19..] == old(packet[19..])
  {
    Set3(packet, 16, reference % 0x80_0000);
  }

  /** Time kept between packets: whether a packet has arrived, and what the next delta starts from. */
  datatype Timing = Timing(firstReceived: bool, timestamp: uint64)

  predicate TimingOk(t: Timing, before: seq<Stat>) {
    && t.firstReceived == LastArrival(before).Some?
    && (t.firstReceived ==> t.timestamp == LastArrival(before).value)
  }

  /** Measures the i-th packet; the first arrival also fixes the reference time in the packet. */
  method Observe(packet: array<byte>, ghost stats: seq<Stat>, ghost i: nat, stat: Stat, timing: Timing,
                 queue: seq<int32>)
    returns (status: Status, next: Timing, deltas: seq<int32>)
    requires packet.Length >= 20
    requires i < |stats| && stat == stats[i] && TimingOk(timing, stats[..i])
    requires packet[16..19] == ReferenceBytes(Reference(stats[..i]))
    modifies packet
    ensures status == StatusOf(ObservedAt(stats, i))
    ensures TimingOk(next, stats[..i + 1])
    ensures deltas == queue + if ObservedAt(stats, i).Some? then [ObservedAt(stats, i).value] else []
    ensures packet[..16] == old(packet[..16]) && packet[19..] == old(packet[19..])
    ensures packet[16..19] == ReferenceBytes(Reference(stats[..i + 1]))
  {
    ObservedSnoc(stats, i);
    LastArrivalNone(stats[..i]);
    assert stats[..i + 1] == stats[..i] + [stat];
    ReferenceSnoc(stats[..i], stat);
    hide LastArrival, Reference, Delta, ReferenceBytes;
    status, next, deltas := NOT_RECEIVED, timing, queue;
    if stat.timestamp != 0 {
      if !next.firstReceived {
        var reference := stat.timestamp as int / 64000;
        next := Timing(true, reference * 64000);
        WriteReference(packet, reference);
      }
      var delta := Delta(stat.timestamp, next.timestamp);
      if delta < 0 || delta > 255 {
        status := LARGE_OR_NEGATIVE_DELTA;
      } else {
        status := SMALL_DELTA;
      }
      deltas := deltas + [delta];
      next := next.(timestamp := stat.timestamp);
    }
  }

  /** Where the encoder stands after the first i packets. */
  ghost predicate Progress(packet: array<byte>, writer: ChunkWriter, stats: seq<Stat>, i: nat, timing: Timing,
                           deltas: seq<int32>)
    requires i <= |stats|
    reads packet, writer
  {
    && packet.Length >= 23 + 4 * |stats|
    && writer.data == packet && writer.start == 20 && writer.Valid()
    && writer.Seen() == Statuses(Observed(stats[..i]))
    && writer.statuses == QueueAfter(writer.Seen())
    && TimingOk(timing, stats[..i])
    && deltas == Deltas(Observed(stats[..i]))
    && packet[16..19] == ReferenceBytes(Reference(stats[..i]))
  }

  method RecordPacket(packet: array<byte>, writer: ChunkWriter, ghost stats: seq<Stat>, ghost i: nat, stat: Stat,
                      timing: Timing, deltas: seq<int32>) returns (timing': Timing, deltas': seq<int32>)
    requires i < |stats| < 0x1_0000 && stat == stats[i] && |writer.statuses| <= 0x1FFF
    requires Progress(packet, writer, stats, i, timing, deltas)
    modifies packet, writer
    ensures Progress(packet, writer, stats, i + 1, timing', deltas')
    ensures packet[..16] == old(packet[..16]) && packet[19] == old(packet[19])
  {
    hide AllSymbols, Symbols, WordBytes, StatusOf, ReferenceBytes, Observed, ObservedAt, Statuses, Deltas, QueueOk,
         TimingOk, Reference, QueueAfter, Filled, Ended;
    var status;
    ghost var written := packet[19..];
    ghost var chunks := packet[20..writer.len];
    SliceOfSlice(packet[..], 19, packet.Length, 1, writer.len - 19);
    status, timing', deltas' := Observe(packet, stats, i, stat, timing, deltas);
    assert packet[19..] == written;
    assert packet[19] == written[0];
    SliceOfSlice(packet[..], 19, packet.Length, 1, writer.len - 19);
    assert packet[20..writer.len] == chunks;
    StatusesSnoc(stats, i);
    StatusBound(ObservedAt(stats, i));
    QueueSnoc(writer.Seen(), status);
    ghost var front := packet[..20];
    writer.Append(status);
    assert packet[..16] == front[..16] && packet[16..19] == front[16..19] && packet[19] == front[19];
  }

  method WriteLength(packet: array<byte>, len: nat, ghost ssrc: uint32, ghost media: uint32, ghost baseSeq: int,
                     ghost count: int)
    requires 20 <= len <= packet.Length && packet[..16] == FixedPart(0, ssrc, media, baseSeq, count)
    modifies packet
    ensures packet[..16] == FixedPart(len / 4 - 1, ssrc, media, baseSeq, count)
    ensures packet[16..len] == old(packet[16..len])
  {
    hide FixedPart;
    FixedLength(packet[..16], len / 4 - 1, ssrc, media, baseSeq, count);
    Set2(packet, 2, len / 4 - 1);
  }

  lemma {:induction false} SameTail(b: seq<byte>, whole: seq<byte>, front: seq<byte>)
    requires |b| == |whole| >= 20 == |front| && b[16..] == whole[16..] && whole[..20] == front
    ensures b[16..19] == front[16..19] && b[19] == front[19] && b[20..] == whole[20..]
  {
    assert forall i :: 16 <= i < |b| ==> b[i] == b[16..][i - 16] == whole[16..][i - 16] == whole[i];
    assert forall i :: 0 <= i < 20 ==> front[i] == whole[..20][i] == whole[i];
  }

  /** The deltas and the padding, behind the chunks. */
  method WriteRest(packet: array<byte>, start: nat, deltas: seq<int32>) returns (len: nat, ghost padding: seq<byte>)
    requires start + 2 * |deltas| + 3 <= packet.Length
    modifies packet
    ensures start <= len <= start + 2 * |deltas| + 3 && len % 4 == 0 && packet[..start] == old(packet[..start])
    ensures |padding| < 4 && forall i :: 0 <= i < |padding| ==> padding[i] == 0
    ensures packet[start..len] == DeltaBytes(deltas) + padding
  {
    hide DeltaBytes;
    var deltaEnd := WriteDeltas(packet, start, deltas);
    ghost var front := packet[..deltaEnd];
    len := WritePadding(packet, deltaEnd);
    padding := packet[deltaEnd..len];
    assert packet[..start] == front[..start];
    assert packet[start..deltaEnd] == front[start..deltaEnd];
    SplitSlice(packet[..], start, deltaEnd, len);
  }

  lemma {:induction false} Behind(whole: seq<byte>, chunks: seq<byte>, rest: seq<byte>, front: seq<byte>, words: seq<byte>)
    requires whole == chunks + rest && |chunks| >= 20 && chunks[..20] == front && chunks[20..] == words
    ensures whole[..20] == front && whole[20..] == words + rest
  {
  }

  /** After the last packet: flushes the queue, then writes deltas, padding and the length field. */
  method WriteTail(packet: array<byte>, writer: ChunkWriter, ghost stats: seq<Stat>, deltas: seq<int32>,
                   ghost timing: Timing, ghost ssrc: uint32, ghost media: uint32, ghost packetCount: byte)
    returns (len: nat)
    requires 0 < |stats| < 0x1_0000 && stats[..|stats|] == stats && |writer.statuses| <= 0x1FFF
    requires Progress(packet, writer, stats, |stats|, timing, deltas)
    requires packet[..16] == FixedPart(0, ssrc, media, stats[0].transportSeqNum as int % 0x1_0000, |stats|)
    requires packet[19] == packetCount
    modifies packet, writer
    ensures len <= packet.Length
    ensures ParseFeedback(packet[..len]) == Some(Expected(stats, ssrc, media, packetCount))
  {
    hide FixedPart, AllSymbols, Symbols, WordBytes, ParseFeedback, Expected, StatusOf, ReferenceBytes, Observed,
         Statuses, Deltas, DeltaBytes, QueueOk, Reference, TimingOk, QueueAfter;
    ghost var front := packet[..20];
    assert front[16..19] == packet[16..19] && front[..16] == packet[..16];
    writer.Finish();
    SomeWord(writer.words);
    DeltasSize(Observed(stats));
    ghost var chunks := packet[..writer.len];
    assert chunks[..20] == front && chunks[20..] == WordBytes(writer.words);
    ghost var padding;
    len, padding := WriteRest(packet, writer.len, deltas);
    ghost var whole, rest := packet[..len], packet[writer.len..len];
    assert whole == chunks + rest;
    Behind(whole, chunks, rest, front, WordBytes(writer.words));
    len := FinishLength(packet, len, stats, whole, front, ssrc, media);
    MessageReads(stats, packet[..len], writer.words, padding, ssrc, media, packetCount);
  }

  /** Stores the length; nothing else of the message changes. */
  method FinishLength(packet: array<byte>, end: nat, ghost stats: seq<Stat>, ghost whole: seq<byte>, ghost front: seq<byte>,
                      ghost ssrc: uint32, ghost media: uint32) returns (len: nat)
    requires 0 < |stats| && 20 <= end <= packet.Length && whole == packet[..end] && whole[..20] == front
    requires front[..16] == FixedPart(0, ssrc, media, stats[0].transportSeqNum as int % 0x1_0000, |stats|)
    modifies packet
    ensures len == end
    ensures var b := packet[..len];
            && b[..16] == FixedPart(len / 4 - 1, ssrc, media, stats[0].transportSeqNum as int % 0x1_0000, |stats|)
            && b[16..19] == front[16..19] && b[19] == front[19] && b[20..] == whole[20..]
  {
    hide FixedPart;
    len := end;
    assert packet[..16] == whole[..16] == front[..16];
    WriteLength(packet, len, ssrc, media, stats[0].transportSeqNum as int % 0x1_0000, |stats|);
    ghost var b := packet[..len];
    assert b[16..] == packet[16..len];
    assert whole[16..] == old(packet[16..end]);
    SameTail(b, whole, front);
    SliceOfSlice(packet[..], 0, len, 0, 16);
    assert packet[0..len] == b && b[..16] == b[0..16] && packet[0..16] == packet[..16];
  }

  /** The fixed part, and an empty queue of statuses behind it. */
  method BeginMessage(packet: array<byte>, ssrc: uint32, media: uint32, baseSeq: int, count: nat, packetCount: byte,
                      ghost stats: seq<Stat>) returns (writer: ChunkWriter)
    requires packet.Length >= 23 + 4 * |stats|
    modifies packet
    ensures fresh(writer) && Progress(packet, writer, stats, 0, Timing(false, 0), [])
    ensures packet[..16] == FixedPart(0, ssrc, media, baseSeq, count) && packet[19] == packetCount
  {
    hide FixedPart, AllSymbols, Symbols, WordBytes, StatusOf, ReferenceBytes, Observed, Statuses, Deltas, TimingOk, Reference,
         QueueAfter;
    WriteFixed(packet, ssrc, media, baseSeq, count, packetCount);
    assert packet[16..19] == packet[16..20][..3] && packet[19] == packet[16..20][3];
    writer := new ChunkWriter(packet, 20);
    NothingYet();
    assert stats[..0] == [];
  }

  /**
   Writes the feedback message for the queued records and empties the queue.  The packet must have
   room for the worst case of one chunk and one large delta per record.
   */
  method TransportWideCcFeedback(packet: array<byte>, ssrc: uint32, media: uint32, packetCount: byte,
                                 queue: StatQueue) returns (len: int)
    requires |queue.items| < 0x1_0000 && QueuesFit(Statuses(Observed(queue.items)))
    requires packet.Length >= 4 && queue.items != [] ==> packet.Length >= 23 + 4 * |queue.items|
    modifies packet, queue
    ensures len == -1 <==> packet.Length < 4 || old(queue.items) == []
    ensures len == -1 ==> packet[..] == old(packet[..]) && queue.items == old(queue.items)
    ensures len != -1 ==>
              && 0 <= len <= packet.Length
              && ParseFeedback(packet[..len]) == Some(Expected(old(queue.items), ssrc, media, packetCount))
              && queue.items == []
  {
    hide FixedPart, AllSymbols, Symbols, WordBytes, ParseFeedback, Expected, StatusOf, ReferenceBytes, Observed,
         Statuses, Deltas, QueueOk, TimingOk, Reference, QueueAfter;
    if packet.Length < 4 || queue.items == [] {
      return -1;
    }
    ghost var stats := queue.items;
    var stat := queue.PopHead();
    var writer := BeginMessage(packet, ssrc, media, stat.value.transportSeqNum as int % 0x1_0000, |queue.items| + 1, packetCount, stats);
    var timing, deltas := Timing(false, 0), [];
    ghost var i := 0;
    ghost var fixed := packet[..16];
    while stat.Some?
      invariant 0 <= i <= |stats| && stat == (if i < |stats| then Some(stats[i]) else None)
      invariant queue.items == if i < |stats| then stats[i + 1..] else []
      invariant fresh(writer) && Progress(packet, writer, stats, i, timing, deltas)
      invariant packet[..16] == fixed && packet[19] == packetCount
      decreases |stats| - i
    {
      QueueFits(stats, i);
      timing, deltas := RecordPacket(packet, writer, stats, i, stat.value, timing, deltas);
      i := i + 1;
      stat := queue.PopHead();
    }
    assert stats[..i] == stats;
    QueueFits(stats, i);
    len := WriteTail(packet, writer, stats, deltas, timing, ssrc, media, packetCount);
  }

  /** The queue after the first i records, when none outgrows a run chunk. */
  lemma {:induction false} QueueFits(stats: seq<Stat>, i: nat)
    requires i <= |stats| && QueuesFit(Statuses(Observed(stats)))
    ensures |QueueAfter(Statuses(Observed(stats[..i])))| <= 0x1FFF
  {
    hide QueueAfter, StatusOf, Delta, MeasuredFrom;
    var ss := Statuses(Observed(stats));
    forall k | 0 <= k < i ensures Statuses(Observed(stats[..i]))[k] == ss[k] {
      assert stats[..i][..k] == stats[..k];
    }
    assert Statuses(Observed(stats[..i])) == ss[..i];
  }

  /** Up to 8191 records always fit. */
  lemma {:induction false} FewRecordsFit(stats: seq<Stat>)
    requires |stats| <= 0x1FFF
    ensures QueuesFit(Statuses(Observed(stats)))
  {
    hide QueueAfter, Alike, Observed, Statuses;
    ShortRunsFit(Statuses(Observed(stats)));
  }

  lemma {:induction false} StatusBound(o: Option<int32>)
    ensures StatusOf(o) <= LARGE_OR_NEGATIVE_DELTA
  {
  }

  lemma {:induction false} NothingYet()
    ensures Observed([]) == [] && Statuses([]) == [] && Deltas([]) == [] && QueueAfter([]) == []
    ensures TimingOk(Timing(false, 0), []) && ReferenceBytes(Reference([])) == [0, 0, 0]
  {
  }

  lemma {:induction false} StatusesSnoc(stats: seq<Stat>, i: nat)
    requires i < |stats|
    ensures Statuses(Observed(stats[..i + 1])) == Statuses(Observed(stats[..i])) + [StatusOf(ObservedAt(stats, i))]
    ensures Deltas(Observed(stats[..i + 1])) == Deltas(Observed(stats[..i]))
            + if ObservedAt(stats, i).Some? then [ObservedAt(stats, i).value] else []
  {
    hide StatusOf, ObservedAt;
    ObservedSnoc(stats, i);
    DeltasSnoc(Observed(stats[..i]), ObservedAt(stats, i));
  }

  // ----- how well the reader can rebuild arrival times -----

  function ArrivedCount(stats: seq<Stat>): nat {
    if stats == [] then 0
    else ArrivedCount(stats[..|stats| - 1]) + if stats[|stats| - 1].timestamp != 0 then 1 else 0
  }

  predicate Unclamped(stats: seq<Stat>) {
    forall i :: 0 <= i < |stats| && stats[i].timestamp != 0 ==>
      -0x8000 <= Ticks(stats[i].timestamp, MeasuredFrom(stats[..i], stats[i].timestamp)) < 0x8000
  }

  predicate NonDecreasing(stats: seq<Stat>) {
    forall i, j :: 0 <= i < j < |stats| && stats[i].timestamp != 0 && stats[j].timestamp != 0 ==>
      stats[i].timestamp <= stats[j].timestamp
  }

  lemma {:induction false} UnclampedDelta(now: uint64, before: uint64)
    requires -0x8000 <= Ticks(now, before) < 0x8000
    ensures Clamp(Delta(now, before)) == Ticks(now, before)
    ensures -250 < now - before - 250 * Ticks(now, before) < 250
    ensures before <= now ==> 0 <= now - before - 250 * Ticks(now, before)
  {
  }

  lemma {:induction false} LastArrivalOccurs(stats: seq<Stat>)
    ensures LastArrival(stats).Some? ==>
      exists i :: 0 <= i < |stats| && stats[i].timestamp != 0 && stats[i].timestamp == LastArrival(stats).value
  {
    if stats != [] && stats[|stats| - 1].timestamp == 0 {
      LastArrivalOccurs(stats[..|stats| - 1]);
    }
  }

  /** The clock after the first i packets, against the last arrival among them. */
  lemma {:induction false} ClockTracks(stats: seq<Stat>, i: nat)
    requires i <= |stats| && Unclamped(stats)
    ensures var clock := Clock(Reference(stats), Arrivals(Observed(stats))[..i]);
            var k := ArrivedCount(stats[..i]);
            match LastArrival(stats[..i])
            case None => clock == 64000 * Reference(stats)
            case Some(t) => -250 * k < t - clock < 250 * k && (NonDecreasing(stats) ==> 0 <= t - clock)
    decreases i
  {
    hide Observed, Reference, NonDecreasing, Delta, Ticks, Clamp;
    if i > 0 {
      var s, arrivals := stats[..i], Arrivals(Observed(stats));
      var now := stats[i - 1].timestamp;
      assert s[..i - 1] == stats[..i - 1] && arrivals[..i][..i - 1] == arrivals[..i - 1];
      ClockTracks(stats, i - 1);
      ObservedGives(stats, i - 1);
      if now != 0 {
        FirstReference(stats, i - 1);
        var before := MeasuredFrom(stats[..i - 1], now);
        UnclampedDelta(now, before);
        if NonDecreasing(stats) {
          InOrder(stats, i - 1);
        }
      }
    }
  }

  lemma {:induction false} ObservedGives(stats: seq<Stat>, i: nat)
    requires i < |stats|
    ensures var now := stats[i].timestamp;
            Arrivals(Observed(stats))[i] ==
            if now == 0 then Missing else Arrived(Clamp(Delta(now, MeasuredFrom(stats[..i], now))))
  {
  }

  lemma {:induction false} InOrder(stats: seq<Stat>, i: nat)
    requires i < |stats| && NonDecreasing(stats) && stats[i].timestamp != 0
    ensures MeasuredFrom(stats[..i], stats[i].timestamp) <= stats[i].timestamp
  {
    LastArrivalOccurs(stats[..i]);
  }

  lemma {:induction false} FirstReference(stats: seq<Stat>, i: nat)
    requires i < |stats| && stats[i].timestamp != 0
    ensures LastArrival(stats[..i]).None? ==> Reference(stats) == stats[i].timestamp as int / 64000
  {
    if LastArrival(stats[..i]).None? {
      LastArrivalNone(stats[..i]);
      assert forall j :: 0 <= j < i ==> stats[..i][j] == stats[j];
      ReferenceSkips(stats, i);
    }
  }

  lemma {:induction false} ReferenceSkips(stats: seq<Stat>, i: nat)
    requires i < |stats| && stats[i].timestamp != 0
    requires forall j :: 0 <= j < i ==> stats[j].timestamp == 0
    ensures Reference(stats) == stats[i].timestamp as int / 64000
  {
    if i > 0 {
      ReferenceSkips(stats[1..], i - 1);
    }
  }

  /**
   Timing kept by the message: when no delta is clamped and the reference time fits 23 bits, the
   time rebuilt for the k-th arrival is off by less than 250 k microseconds, and is not late when
   the arrivals are in order.
   */
  lemma {:induction false} RebuiltTimes(stats: seq<Stat>, ssrc: uint32, media: uint32, packetCount: byte, i: nat)
    requires i < |stats| < 0x1_0000 && stats[i].timestamp != 0
    requires Unclamped(stats) && Reference(stats) < 0x80_0000
    ensures var fb := Expected(stats, ssrc, media, packetCount);
            var late := stats[i].timestamp - Clock(fb.reference, fb.arrivals[..i + 1]);
            var k := ArrivedCount(stats[..i + 1]);
            -250 * k < late < 250 * k && (NonDecreasing(stats) ==> 0 <= late)
  {
    hide Observed, Reference, NonDecreasing, Arrivals, Unclamped;
    ClockTracks(stats, i + 1);
    assert LastArrival(stats[..i + 1]) == Some(stats[i].timestamp);
  }
}
