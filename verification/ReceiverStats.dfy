/**
 RTP reception statistics: unwrapping of 16-bit sequence numbers and the loss figures of report blocks
 (appendix A.1 and A.3 of RFC 3550).
 */
module ReceiverStats {
  import opened Basics

  const TWO16 := 0x1_0000
  const MAX_LOST := 0x7F_FFFF

  // ----- the counters -----

  datatype Stats = Stats(
    maxSeqNr: uint16,
    seqCycle: uint16,
    baseSeq: uint16,
    received: uint32,
    receivedPrior: uint32,
    expected: uint32,
    expectedPrior: uint32,
    lost: uint32,
    retransmitted: uint32,
    retransmittedPrior: uint32)

  const ZERO := Stats(0, 0, 0, 0, 0, 0, 0, 0, 0, 0)

  /** A packet: rtx is set on a retransmission channel, late when it is out of order and taken for a retransmission. */
  function Packet(s: Stats, seqNumber: uint16, rtx: bool, late: bool): Stats {
    var b := if s.baseSeq == 0 && s.seqCycle == 0 then s.(baseSeq := seqNumber) else s;
    if rtx then b.(retransmitted := (b.retransmitted as int + 1) % TWO32)
    else if ToInt16(seqNumber as int - b.maxSeqNr as int) > 0 then
      var cycle := if seqNumber < b.maxSeqNr then (b.seqCycle as int + 1) % TWO16 else b.seqCycle as int;
      b.(received := (b.received as int + 1) % TWO32, seqCycle := cycle, maxSeqNr := seqNumber,
         expected := (cycle * TWO16 + 1 + seqNumber as int - b.baseSeq as int) % TWO32)
    else if late then b.(retransmitted := (b.retransmitted as int + 1) % TWO32)
    else b.(received := (b.received as int + 1) % TWO32)
  }

  function Difference(a: uint32, b: uint32): uint32 {
    (a as int - b as int) % TWO32
  }

  /** The packets lost since the last report, as the counters show them. */
  function LostInterval(s: Stats): uint32 {
    Shortfall(Difference(s.expected, s.expectedPrior), Difference(s.received, s.receivedPrior))
  }

  function Shortfall(expected: uint32, received: uint32): uint32 {
    if expected > received then expected - received else 0
  }

  function ReportedLost(s: Stats): uint32 {
    if s.lost > MAX_LOST then MAX_LOST else s.lost
  }

  function LostFraction(s: Stats): uint32 {
    Fraction(Difference(s.expected, s.expectedPrior), Difference(s.received, s.receivedPrior))
  }

  /** The fraction lost, as it is computed: a signed shift, then an unsigned division. */
  function Fraction(expected: uint32, received: uint32): uint32 {
    var l := ToInt32(expected as int - received as int);
    if expected == 0 || l <= 0 then 0
    else
      var shifted := ToInt32(l as int * 256) as int % TWO32;
      DivFacts(shifted, expected);
      shifted / expected as int
  }

  /** The counters after a report block. */
  function Reported(s: Stats): Stats {
    s.(lost := (s.lost as int + ToInt32(LostInterval(s)) as int) % TWO32,
       expectedPrior := s.expected, receivedPrior := s.received, retransmittedPrior := s.retransmitted)
  }

  /** a | b << 24, for a below 2^24. */
  function PackedLoss(lost: uint32, fraction: uint32): uint32 {
    (lost as int + fraction as int % 0x100 * 0x100_0000) % TWO32
  }

  /** The distance in time of two timestamps, in milliseconds, as 32-bit arithmetic has it. */
  function Milliseconds(timestamp: uint32, last: uint32, clock: uint32): int32
    requires clock > 0
  {
    ToInt32(Magnitude(ToInt32(timestamp as int - last as int)) * 1000 % TWO32 / clock)
  }

  function Magnitude(d: int): nat {
    if d < 0 then -d else d
  }

  /** An out-of-order packet is taken for a retransmission when it is more than 120 ms away. */
  predicate TooOld(timestamp: uint32, last: uint32, clock: uint32)
    requires clock > 0
  {
    Milliseconds(timestamp, last, clock) > 120
  }

  lemma {:induction false} Above120(a: uint32, clock: uint32)
    requires clock >= 2
    ensures a as int / clock as int < 0x8000_0000 && (a as int / clock as int > 120 <==> a >= 121 * clock as int)
  {
    var q: nat := a / clock as int;
    DivFacts(a, clock);
    MulMono(121, q, clock);
    MulMono(q, 120, clock);
    MulMono(2, clock, q);
    assert q * clock as int == clock as int * q;
  }

  lemma {:induction false} DistanceIs(last: uint32, d: int)
    requires -0x8000_0000 <= d < 0x8000_0000
    ensures ToInt32((last as int + d) % TWO32 - last as int) == d
  {
  }

  /** While the product does not wrap, that is 121 ms or more, before or after the last packet in order. */
  lemma {:induction false} TooOldExactly(last: uint32, d: int, clock: uint32)
    requires -4294967 <= d <= 4294967 && clock >= 2
    ensures TooOld((last as int + d) % TWO32, last, clock) <==> Magnitude(d) * 1000 >= 121 * clock as int
  {
    hide ToInt32;
    DistanceIs(last, d);
    var a: nat := Magnitude(d) * 1000;
    hide Magnitude;
    NoWrap(a);
    Above120(a, clock);
    SmallInt32(a / clock as int);
  }

  lemma {:induction false} NoWrap(a: nat)
    requires a < TWO32
    ensures a % TWO32 == a
  {
  }

  lemma {:induction false} SmallInt32(x: nat)
    ensures x < 0x8000_0000 ==> ToInt32(x) == x
  {
  }

  class RtcpContext {
    var rtpRecvd: bool
    var tb: uint32  // the clock rate
    var rtpLastInorderTs: uint32
    var maxSeqNr: uint16
    var seqCycle: uint16
    var baseSeq: uint16
    var received: uint32
    var receivedPrior: uint32
    var expected: uint32
    var expectedPrior: uint32
    var lost: uint32
    var retransmitted: uint32
    var retransmittedPrior: uint32

    ghost function Counters(): Stats
      reads this
    {
      Stats(maxSeqNr, seqCycle, baseSeq, received, receivedPrior, expected, expectedPrior, lost, retransmitted,
            retransmittedPrior)
    }

    constructor ()
      ensures Counters() == ZERO && !rtpRecvd && tb == 0
    {
      rtpRecvd, tb, rtpLastInorderTs, maxSeqNr, seqCycle, baseSeq := false, 0, 0, 0, 0, 0;
      received, receivedPrior, expected, expectedPrior, lost, retransmitted, retransmittedPrior := 0, 0, 0, 0, 0, 0, 0;
    }

    /** A packet ahead of the highest one. */
    method NextInOrder(seqNumber: uint16)
      modifies this`received, this`seqCycle, this`maxSeqNr, this`expected
      ensures received == (old(received) as int + 1) % TWO32 && maxSeqNr == seqNumber
      ensures seqCycle == if seqNumber < old(maxSeqNr) then (old(seqCycle) as int + 1) % TWO16 else old(seqCycle) as int
      ensures expected == (seqCycle as int * TWO16 + 1 + seqNumber as int - baseSeq as int) % TWO32
    {
      received := (received as int + 1) % TWO32;
      if seqNumber < maxSeqNr {
        seqCycle := (seqCycle as int + 1) % TWO16;
      }
      maxSeqNr := seqNumber;
      var rtpExpected := 0;
      if seqCycle > 0 {
        rtpExpected := seqCycle as int * TWO16;
      }
      rtpExpected := (rtpExpected + 1 + maxSeqNr as int - baseSeq as int) % TWO32;
      expected := rtpExpected;
    }

    /** A packet that is not the next one, on its own channel or not. */
    method OutOfOrder(timestamp: uint32, rtxEnabled: bool, retransmissionsDisabled: bool)
      requires tb > 0 || rtxEnabled || retransmissionsDisabled
      modifies this`received, this`retransmitted
      ensures var late := !rtxEnabled && !retransmissionsDisabled && TooOld(timestamp, rtpLastInorderTs, tb);
              && received == (if late then old(received) else (old(received) as int + 1) % TWO32)
              && retransmitted == (if late then (old(retransmitted) as int + 1) % TWO32 else old(retransmitted))
    {
      hide TooOld;
      if rtxEnabled {
        received := (received as int + 1) % TWO32;
      } else if !retransmissionsDisabled {
        if TooOld(timestamp, rtpLastInorderTs, tb) {
          retransmitted := (retransmitted as int + 1) % TWO32;
        } else {
          received := (received as int + 1) % TWO32;
        }
      } else {
        received := (received as int + 1) % TWO32;
      }
    }

    /** A clock rate has to be given before it is needed to judge a packet that is out of order. */
    method ProcessIncomingRtp(seqNumber: uint16, timestamp: uint32, rtxPacket: bool, rtxEnabled: bool,
                              retransmissionsDisabled: bool, rate: uint32)
      requires tb > 0 || rate > 0 || rtxPacket || rtxEnabled || retransmissionsDisabled
               || ToInt16(seqNumber as int - maxSeqNr as int) > 0
      modifies this
      ensures rtpRecvd && tb == if rate > 0 then rate else old(tb)
      ensures rtpLastInorderTs ==
              if !rtxPacket && ToInt16(seqNumber as int - old(maxSeqNr) as int) > 0 then timestamp else old(rtpLastInorderTs)
      ensures Counters() ==
              Packet(old(Counters()), seqNumber, rtxPacket,
                     !rtxEnabled && !retransmissionsDisabled && tb > 0 && TooOld(timestamp, old(rtpLastInorderTs), tb))
    {
      hide TooOld;
      if rate > 0 && tb != rate {
        tb := rate;
      }
      if baseSeq == 0 && seqCycle == 0 {
        baseSeq := seqNumber;
      }
      if !rtxPacket {
        if ToInt16(seqNumber as int - maxSeqNr as int) > 0 {
          NextInOrder(seqNumber);
          rtpLastInorderTs := timestamp;
        } else {
          OutOfOrder(timestamp, rtxEnabled, retransmissionsDisabled);
        }
      } else {
        retransmitted := (retransmitted as int + 1) % TWO32;
      }
      rtpRecvd := true;
    }

    /** The extended highest sequence number and the packed loss of a report block. */
    method ReportBlock() returns (ehsnr: uint32, flcnpl: uint32)
      modifies this
      ensures Counters() == Reported(old(Counters())) && rtpRecvd == old(rtpRecvd)
      ensures ehsnr == (old(seqCycle) as int * TWO16 + old(maxSeqNr) as int) % TWO32
      ensures var s := old(Counters());
              flcnpl == PackedLoss(ReportedLost(Reported(s)), LostFraction(s))
    {
      hide Fraction, PackedLoss, ToInt32, Difference;
      ehsnr := (seqCycle as int * TWO16 + maxSeqNr as int) % TWO32;
      var expectedInterval := Difference(expected, expectedPrior);
      var receivedInterval := Difference(received, receivedPrior);
      var lostInterval: int32 := ToInt32(0);
      if expectedInterval > receivedInterval {
        lostInterval := ToInt32(expectedInterval as int - receivedInterval as int);
      }
      lost := (lost as int + lostInterval as int) % TWO32;
      var reportedLost := if lost > MAX_LOST then MAX_LOST else lost as int;
      var reportedFraction := Fraction(expectedInterval, receivedInterval);
      expectedPrior := expected;
      receivedPrior := received;
      retransmittedPrior := retransmitted;
      flcnpl := PackedLoss(reportedLost, reportedFraction);
    }
  }

  // ----- what really happened -----

  /** True numbers: the first and highest packet, and since the last report what was expected before and received. */
  datatype Truth = Truth(first: int, highest: int, prior: int, got: nat, lost: nat) {
    function Expected(): int {
      highest - first + 1
    }

    function LostNow(): nat {
      if Expected() - prior > got then Expected() - prior - got else 0
    }
  }

  /** An RTP packet with its true number, or a report. */
  datatype Event = Rtp(number: int, rtx: bool, late: bool) | Report

  function Apply(s: Stats, e: Event): Stats {
    match e
    case Rtp(number, rtx, late) => Packet(s, number % TWO16, rtx, late)
    case Report => Reported(s)
  }

  function Happened(t: Truth, e: Event): Truth {
    match e
    case Rtp(number, rtx, late) =>
      if rtx then t
      else if number > t.highest then t.(highest := number, got := t.got + 1)
      else if late then t
      else t.(got := t.got + 1)
    case Report => t.(lost := t.lost + t.LostNow(), prior := t.Expected(), got := 0)
  }

  /** The difference of two true numbers, as 16 bits show it, has the right sign. */
  predicate Readable(highest: int, number: int) {
    if number > highest then number - highest <= 0x7FFF
    else (number - highest) % TWO16 == 0 || (number - highest) % TWO16 >= 0x8000
  }

  /** The counters tell the truth. */
  predicate Tells(s: Stats, t: Truth) {
    && 1 <= t.first <= 0x7FFF && t.first <= t.highest < TWO32
    && s.baseSeq == t.first && s.seqCycle as int * TWO16 + s.maxSeqNr as int == t.highest
    && s.expected == t.Expected() && s.expectedPrior == t.prior && 0 <= t.prior <= t.Expected()
    && Difference(s.received, s.receivedPrior) == t.got % TWO32
    && s.lost == t.lost % TWO32
    && (t.Expected() > t.prior ==> t.got >= 1)
  }

  // ----- unwrapping -----

  lemma {:induction false} SignOf(highest: int, number: int)
    ensures var d := ToInt16(number % TWO16 - highest % TWO16);
            if number > highest then (d > 0 && d == number - highest) <==> Readable(highest, number)
            else d <= 0 <==> Readable(highest, number)
  {
    var d := number - highest;
    assert (number % TWO16 - highest % TWO16) % TWO16 == d % TWO16;
  }

  /** The first packet starts the count correctly exactly when its number is in 1..32767. */
  lemma {:induction false} FirstPacket(number: uint16, late: bool)
    ensures var s := Packet(ZERO, number, false, late);
            s.expected == 1 && s.baseSeq == number && s.seqCycle == 0 && s.maxSeqNr == number
            <==> 1 <= number <= 0x7FFF
    ensures 1 <= number <= 0x7FFF ==> Tells(Packet(ZERO, number, false, late), Truth(number, number, 0, 1, 0))
  {
    assert number <= 0x7FFF ==> ToInt16(number) == number;
    assert number > 0x7FFF ==> ToInt16(number) < 0;
  }

  lemma {:induction false} Split(x: int, q: int, r: int)
    requires x == q * TWO16 + r && 0 <= r < TWO16
    ensures x / TWO16 == q && x % TWO16 == r
  {
  }

  /** The cycle that a number ahead of the highest one is in. */
  lemma {:induction false} NextCycle(highest: nat, number: nat, c: nat, m: nat)
    requires highest < number < TWO32 && number - highest <= 0x7FFF && highest == c * TWO16 + m && m < TWO16
    ensures var n := number % TWO16;
            var c' := if n < m then c + 1 else c;
            number == c' * TWO16 + n && c' < TWO16
  {
    var q, n := number / TWO16, number % TWO16;
    assert number == q * TWO16 + n && c <= q <= c + 1;
  }

  /** A packet beyond the highest: the cycle counts up exactly when the 16-bit number has wrapped. */
  lemma {:induction false} InOrder(s: Stats, t: Truth, number: int, late: bool)
    requires Tells(s, t) && t.highest < number < TWO32 && number - t.highest <= 0x7FFF
    ensures Tells(Packet(s, number % TWO16, false, late), Happened(t, Rtp(number, false, late)))
  {
    var c, m := s.seqCycle as int, s.maxSeqNr as int;
    SignOf(t.highest, number);
    Split(t.highest, c, m);
    NextCycle(t.highest, number, c, m);
    var n := number % TWO16;
    var c' := if n < m then c + 1 else c;
    var r := Packet(s, n, false, late);
    assert r.seqCycle == c' && r.expected == number - t.first + 1;
    OneMore(s.received, s.receivedPrior, t.got);
  }

  lemma {:induction false} OneMore(received: uint32, prior: uint32, got: nat)
    requires Difference(received, prior) == got % TWO32
    ensures Difference((received as int + 1) % TWO32, prior) == (got + 1) % TWO32
  {
  }

  /** One packet more keeps the counters true, whether it is in order or not. */
  lemma {:induction false} PacketTells(s: Stats, t: Truth, number: int, rtx: bool, late: bool)
    requires Tells(s, t) && number < TWO32 && (rtx || Readable(t.highest, number))
    ensures Tells(Packet(s, number % TWO16, rtx, late), Happened(t, Rtp(number, rtx, late)))
  {
    if !rtx {
      if number > t.highest {
        InOrder(s, t, number, late);
      } else {
        SignOf(t.highest, number);
        Split(t.highest, s.seqCycle, s.maxSeqNr);
        OneMore(s.received, s.receivedPrior, t.got);
      }
    }
  }

  /** A packet that is not readable breaks the count of the highest number. */
  lemma {:induction false} ReadableExactly(s: Stats, t: Truth, number: int, late: bool)
    requires Tells(s, t) && number < TWO32
    ensures var r := Packet(s, number % TWO16, false, late);
            r.seqCycle as int * TWO16 + r.maxSeqNr as int == Happened(t, Rtp(number, false, late)).highest
            <==> Readable(t.highest, number)
  {
    if Readable(t.highest, number) {
      PacketTells(s, t, number, false, late);
    } else {
      Unreadable(s, t, number, late);
    }
  }

  lemma {:induction false} Unreadable(s: Stats, t: Truth, number: int, late: bool)
    requires Tells(s, t) && number < TWO32 && !Readable(t.highest, number)
    ensures var r := Packet(s, number % TWO16, false, late);
            r.seqCycle as int * TWO16 + r.maxSeqNr as int != Happened(t, Rtp(number, false, late)).highest
  {
    var c, m, n := s.seqCycle as int, s.maxSeqNr as int, number % TWO16;
    SignOf(t.highest, number);
    Split(t.highest, c, m);
    var r := Packet(s, n, false, late);
    var d := ToInt16(n - m);
    if d > 0 {
      var h := r.seqCycle as int * TWO16 + r.maxSeqNr as int;
      if n < m && c == 0xFFFF {
        assert h == n;
      } else {
        assert h == t.highest + d;
      }
    }
  }

  // ----- reports -----

  lemma {:induction false} ReportTells(s: Stats, t: Truth)
    requires Tells(s, t) && t.got < TWO32 && t.LostNow() < 0x8000_0000
    ensures Tells(Reported(s), Happened(t, Report))
  {
    assert Difference(s.expected, s.expectedPrior) == t.Expected() - t.prior;
    assert LostInterval(s) == t.LostNow();
    assert ToInt32(t.LostNow()) == t.LostNow();
  }

  /**
   A positive expected interval has at least one packet received in it, so the fraction lost is below
   256 and equals the share of the interval that was lost; the packed word gives back both the fraction
   and the clamped count.
   */
  lemma {:induction false} ReportDecodes(s: Stats, t: Truth)
    requires Tells(s, t) && t.got < 0x8000_0000 && t.LostNow() < 0x80_0000
    ensures var e, l := t.Expected() - t.prior, t.LostNow();
            var lost := ReportedLost(Reported(s));
            var word := PackedLoss(lost, LostFraction(s));
            && (e > 0 ==> 1 <= t.got && l < e)
            && LostFraction(s) == (if l == 0 then 0 else l * 256 / e) && LostFraction(s) < 256
            && word as int / 0x100_0000 == LostFraction(s) && word as int % 0x100_0000 == lost
            && lost == Min((t.lost + l) % TWO32, MAX_LOST)
  {
    hide PackedLoss, Fraction, Difference, ToInt32, Shortfall;
    var e, l := t.Expected() - t.prior, t.LostNow();
    Intervals(s, t);
    FractionIs(e, t.got, l);
    Unpack(ReportedLost(Reported(s)), LostFraction(s));
  }

  /** The differences of the counters are the true intervals. */
  lemma {:induction false} Intervals(s: Stats, t: Truth)
    requires Tells(s, t) && t.got < TWO32 && t.LostNow() < 0x8000_0000
    ensures Difference(s.expected, s.expectedPrior) == t.Expected() - t.prior
    ensures Difference(s.received, s.receivedPrior) == t.got
    ensures LostInterval(s) == t.LostNow() && ToInt32(LostInterval(s)) == t.LostNow()
    ensures Reported(s).lost == (t.lost + t.LostNow()) % TWO32
  {
    hide ToInt32;
    assert t.got % TWO32 == t.got;
    SameDifference(s.expected, s.expectedPrior);
    Int32Kept(t.LostNow());
    SumModulo(t.lost, t.LostNow());
  }

  lemma {:induction false} SameDifference(a: uint32, b: uint32)
    requires b <= a
    ensures Difference(a, b) == a - b
  {
  }

  lemma {:induction false} SumModulo(a: nat, b: nat)
    ensures (a % TWO32 + b) % TWO32 == (a + b) % TWO32
  {
  }

  lemma {:induction false} FractionIs(e: uint32, r: uint32, l: nat)
    requires r < 0x8000_0000 && l < 0x80_0000 && l == (if e > r then e - r else 0) && (e > 0 ==> r > 0)
    ensures Fraction(e, r) == (if l == 0 then 0 else l * 256 / e) && Fraction(e, r) < 256
  {
    hide ToInt32;
    Int32Kept(e as int - r as int);
    Int32Kept(l * 256);
    if l > 0 {
      FractionFits(l, e);
    }
  }

  lemma {:induction false} Int32Kept(x: int)
    requires -0x8000_0000 <= x < 0x8000_0000
    ensures ToInt32(x) == x
  {
  }

  lemma {:induction false} FractionFits(l: nat, e: nat)
    requires l < e
    ensures l * 256 / e < 256
  {
    var q := l * 256 / e;
    assert q * e <= l * 256 < 256 * e;
    assert (256 - q) * e > 0;
  }

  lemma {:induction false} Unpack(lost: uint32, fraction: uint32)
    requires lost <= MAX_LOST && fraction < 256
    ensures var word := PackedLoss(lost, fraction);
            word as int / 0x100_0000 == fraction && word as int % 0x100_0000 == lost
  {
  }

  // ----- whole runs -----

  /** What the run asks for: readable numbers below 2^32, and losses and receptions that the words can hold. */
  predicate Orderly(t: Truth, events: seq<Event>)
    decreases |events|
  {
    events != [] ==>
      && (match events[0]
          case Rtp(number, rtx, _) => number < TWO32 && (rtx || Readable(t.highest, number))
          case Report => t.got < TWO32 && t.LostNow() < 0x8000_0000)
      && Orderly(Happened(t, events[0]), events[1..])
  }

  function RunOn(s: Stats, events: seq<Event>): Stats
    decreases |events|
  {
    if events == [] then s else RunOn(Apply(s, events[0]), events[1..])
  }

  function TruthOf(t: Truth, events: seq<Event>): Truth
    decreases |events|
  {
    if events == [] then t else TruthOf(Happened(t, events[0]), events[1..])
  }

  /** In every run that starts with a packet in 1..32767, packets and reports interleaved, the counters stay true. */
  lemma {:induction false} RunTells(first: uint16, late: bool, events: seq<Event>)
    requires 1 <= first <= 0x7FFF && Orderly(Truth(first, first, 0, 1, 0), events)
    ensures Tells(RunOn(Packet(ZERO, first, false, late), events), TruthOf(Truth(first, first, 0, 1, 0), events))
  {
    hide Tells, Orderly, Packet;
    FirstPacket(first, late);
    RunsOn(Packet(ZERO, first, false, late), Truth(first, first, 0, 1, 0), events);
  }

  lemma {:induction false} RunsOn(s: Stats, t: Truth, events: seq<Event>)
    requires Tells(s, t) && Orderly(t, events)
    ensures Tells(RunOn(s, events), TruthOf(t, events))
    decreases |events|
  {
    hide Tells, Packet, Reported;
    if events != [] {
      match events[0] {
        case Rtp(number, rtx, late) => PacketTells(s, t, number, rtx, late);
        case Report => ReportTells(s, t);
      }
      RunsOn(Apply(s, events[0]), Happened(t, events[0]), events[1..]);
    }
  }
}
