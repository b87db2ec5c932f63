/** The bitrate estimate of draft-alvestrand-rmcat-remb-03: an exponent of 6 and a mantissa of 18 bits. */
module Remb {
  import opened Basics

  const MANTISSA := 0x3_FFFF
  const LARGEST := 0xFFFF_C000  // the largest mantissa under the exponent 14

  /** 0x3FFFF << b in 32 bits. */
  function Limit(b: nat): uint32 {
    MANTISSA * Pow2(b) % TWO32
  }

  /** The first b from a given one under which the bitrate fits, or 32. */
  function FirstFit(bitrate: uint32, b: nat): (r: nat)
    requires b <= 32
    ensures b <= r <= 32
    decreases 32 - b
  {
    if b == 32 || bitrate <= Limit(b) then b else FirstFit(bitrate, b + 1)
  }

  function Exponent(bitrate: uint32): (e: nat)
    ensures e < 32
  {
    var b := FirstFit(bitrate, 0);
    if b == 32 then 0 else b
  }

  /** The bitrate shifted by the exponent found, or by 31 when there is none. */
  function Mantissa(bitrate: uint32): nat {
    ShiftRight(bitrate, Min(FirstFit(bitrate, 0), 31))
  }

  function ShiftRight(x: nat, k: nat): nat {
    DivFacts(x, Pow2(k));
    x / Pow2(k)
  }

  /** The three bytes that hold exponent and mantissa. */
  function Encode(bitrate: uint32): (b: seq<byte>)
    ensures |b| == 3
  {
    var e, m := Exponent(bitrate), Mantissa(bitrate);
    [(e * 4 + m / 0x1_0000 % 4) % 0x100, m / 0x100 % 0x100, m % 0x100]
  }

  function Decode(b: seq<byte>): uint32
    requires |b| == 3
  {
    (b[0] as int % 4 * 0x1_0000 + b[1] as int * 0x100 + b[2] as int) * Pow2(b[0] / 4) % TWO32
  }

  // ----- the codec -----

  lemma {:induction false} Powers()
    ensures Pow2(1) == 2 && Pow2(14) == 0x4000 && Pow2(18) == 0x4_0000 && Pow2(32) == TWO32
  {
    assert Pow2(7) == 128;
    Pow2Sum(7, 7);
    assert Pow2(4) == 16;
    Pow2Sum(14, 4);
    Pow2Sum(14, 18);
  }

  /** Up to 14 the limit is what it says; beyond, it has overflowed and is smaller again. */
  lemma {:induction false} LimitIs(b: nat)
    requires b < 32
    ensures b <= 14 ==> Limit(b) == MANTISSA * Pow2(b) <= LARGEST
    ensures b > 14 ==> Limit(b) < LARGEST
  {
    Powers();
    if b <= 14 {
      Pow2Mono(b, 14);
    } else {
      Pow2Sum(b, 18);
      Pow2Sum(b - 14, 32);
      Pow2Mono(b, 31);
      Pow2Mono(15, b);
      assert Pow2(32) == 2 * Pow2(31) && Pow2(15) == 2 * Pow2(14);
      Wrapped(Pow2(b), Pow2(b - 14));
    }
  }

  lemma {:induction false} Wrapped(p: nat, q: nat)
    requires p * 0x4_0000 == q * TWO32 && 0x8000 <= p <= TWO32 / 2 && q > 0
    ensures MANTISSA * p % TWO32 == TWO32 - p
  {
    assert MANTISSA * p == (q - 1) * TWO32 + (TWO32 - p);
    Remainder(q - 1, TWO32 - p);
  }

  lemma {:induction false} Remainder(q: nat, r: nat)
    requires r < TWO32
    ensures (q * TWO32 + r) % TWO32 == r
  {
  }

  lemma {:induction false} FirstFitIs(bitrate: uint32, b: nat)
    requires b <= 32
    ensures var r := FirstFit(bitrate, b);
            && (forall k :: b <= k < r ==> bitrate > Limit(k))
            && (r < 32 ==> bitrate <= Limit(r))
    decreases 32 - b
  {
    hide Limit;
    if b < 32 && bitrate > Limit(b) {
      FirstFitIs(bitrate, b + 1);
    }
  }

  /** A bitrate up to 0xFFFFC000 gets the least exponent whose mantissa bound admits it; a larger one gets none. */
  lemma {:induction false} LeastExponent(bitrate: uint32)
    ensures var e := FirstFit(bitrate, 0);
            if bitrate <= LARGEST then
              e <= 14 && bitrate <= MANTISSA * Pow2(e) && forall k :: 0 <= k < e ==> bitrate > MANTISSA * Pow2(k)
            else e == 32
  {
    hide Limit;
    var e := FirstFit(bitrate, 0);
    FirstFitIs(bitrate, 0);
    Powers();
    LimitIs(14);
    if e < 32 {
      LimitIs(e);
    }
    forall k | 0 <= k < e ensures k <= 14 ==> bitrate > MANTISSA * Pow2(k) {
      LimitIs(k);
    }
  }

  lemma {:induction false} Packed(e: nat, m: nat)
    requires e <= 14 && m <= MANTISSA
    ensures var x := e * 4 + m / 0x1_0000 % 4;
            x < 0x100 && x / 4 == e && x % 4 * 0x1_0000 + m / 0x100 % 0x100 * 0x100 + m % 0x100 == m
  {
  }

  /** A number that a shifted bound admits keeps within the bound when it is shifted down. */
  lemma {:induction false} Quotient(x: nat, p: nat, bound: nat)
    requires p > 0 && x <= bound * p
    ensures x / p <= bound && x / p * p <= x < x / p * p + p
  {
    DivFacts(x, p);
    MulMono(bound + 1, x / p, p);
    assert (bound + 1) * p == bound * p + p;
  }

  /** The decoded bitrate is the encoded one without the bits below the exponent. */
  lemma {:induction false} DecodedIs(bitrate: uint32)
    requires bitrate <= LARGEST
    ensures var p := Pow2(FirstFit(bitrate, 0));
            Decode(Encode(bitrate)) == bitrate as int / p * p
            && 0 <= bitrate as int - bitrate as int / p * p < p
  {
    hide FirstFit;
    LeastExponent(bitrate);
    var e := FirstFit(bitrate, 0);
    var p := Pow2(e);
    Quotient(bitrate, p, MANTISSA);
    var m := bitrate as int / p;
    Packed(e, m);
    assert Mantissa(bitrate) == m && Exponent(bitrate) == e;
    PackedDecodes(e, m, p);
  }

  lemma {:induction false} PackedDecodes(e: nat, m: nat, p: nat)
    requires e <= 14 && m <= MANTISSA && p == Pow2(e) && m * p < TWO32
    ensures Decode([(e * 4 + m / 0x1_0000 % 4) % 0x100, m / 0x100 % 0x100, m % 0x100]) == m * p
  {
    Packed(e, m);
    var b: seq<byte> := [(e * 4 + m / 0x1_0000 % 4) % 0x100, m / 0x100 % 0x100, m % 0x100];
    DecodeIs(b, e, m);
  }

  lemma {:induction false} DecodeIs(b: seq<byte>, e: nat, m: nat)
    requires |b| == 3 && b[0] / 4 == e && b[0] as int % 4 * 0x1_0000 + b[1] as int * 0x100 + b[2] as int == m
    requires m * Pow2(e) < TWO32
    ensures Decode(b) == m * Pow2(e)
  {
  }

  /** Short by less than one part in 2^17-1 when the least exponent is not 0. */
  lemma {:induction false} Shortfall(bitrate: nat, p: nat, half: nat, short: nat)
    requires p == 2 * half && bitrate > MANTISSA * half && short < p
    ensures short * 0x1_FFFF < bitrate
  {
    assert short * 0x1_FFFF <= (p - 1) * 0x1_FFFF;
  }

  /**
   Decoding an encoded bitrate up to 0xFFFFC000 gives at most that bitrate: exactly it up to 0x3FFFF,
   and otherwise short by less than bitrate / (2^17 - 1).  Any larger bitrate comes back as 1.
   */
  lemma {:induction false} Accuracy(bitrate: uint32)
    ensures var d := Decode(Encode(bitrate));
            if bitrate <= MANTISSA then d == bitrate
            else if bitrate <= LARGEST then d <= bitrate && (bitrate - d) as int * 0x1_FFFF < bitrate
            else d == 1
  {
    hide FirstFit, Encode, Decode;
    LeastExponent(bitrate);
    if bitrate <= LARGEST {
      DecodedIs(bitrate);
      var e := FirstFit(bitrate, 0);
      var p := Pow2(e);
      if e == 0 {
        assert p == 1;
      } else {
        assert bitrate > MANTISSA * Pow2(e - 1);
        assert bitrate > MANTISSA * Pow2(0);
        Shortfall(bitrate, p, Pow2(e - 1), bitrate as int - bitrate as int / p * p);
      }
    } else {
      TooLarge(bitrate);
    }
  }

  lemma {:induction false} TooLarge(bitrate: uint32)
    requires bitrate > LARGEST && FirstFit(bitrate, 0) == 32
    ensures Decode(Encode(bitrate)) == 1
  {
    hide FirstFit, Decode;
    Powers();
    assert Pow2(32) == 2 * Pow2(31) && Pow2(0) == 1;
    DivIs(bitrate, Pow2(31), 1);
    assert Mantissa(bitrate) == 1 && Exponent(bitrate) == 0;
    PackedDecodes(0, 1, 1);
  }

  // ----- the message -----

  function Message(bitrate: uint32, ssrcs: byte): seq<byte> {
    [0x8F, 206] + Bytes16(4 + ssrcs as int) + Repeat(0, 8) + ['R' as int, 'E' as int, 'M' as int, 'B' as int, ssrcs]
    + Encode(bitrate) + Repeat(0, 4 * ssrcs as int)
  }

  /** A REMB message stands here: payload-specific feedback of format 15 with its identifier and its sources. */
  predicate RembHere(b: seq<byte>) {
    |b| >= 24 && b[1] == 206 && b[0] % 32 == 15 && |b| - 12 >= 4 * b[16] as int
    && b[12] == 'R' as int && b[13] == 'E' as int && b[14] == 'M' as int && b[15] == 'B' as int
  }

  /** The estimate in the first REMB message of a compound packet, or 0. */
  function Estimate(b: seq<byte>): uint32
    decreases |b|
  {
    if |b| < 8 then 0
    else
      var words := Be16(b, 2) as nat;
      if |b| < 4 * words + 4 || b[0] / 64 != 2 then 0
      else if RembHere(b) then Decode(b[17..20])
      else if words == 0 then 0
      else Estimate(b[4 * words + 4..])
  }

  lemma {:induction false} MessageEstimate(bitrate: uint32, ssrcs: byte)
    requires ssrcs > 0
    ensures Estimate(Message(bitrate, ssrcs)) == Decode(Encode(bitrate))
  {
    hide Encode, Decode, Be16, Bytes16;
    var b := Message(bitrate, ssrcs);
    assert |b| == 20 + 4 * ssrcs as int;
    assert b[2..4] == Bytes16(4 + ssrcs as int);
    Be16Inverts(4 + ssrcs as int, b, 2);
    assert b[0] == 0x8F && b[1] == 206 && b[16] == ssrcs;
    assert b[12] == 'R' as int && b[13] == 'E' as int && b[14] == 'M' as int && b[15] == 'B' as int;
    assert b[17..20] == Encode(bitrate);
  }

  /** Writes the message; r is its length, or -1 when it does not fit or names no source. */
  method RtcpRembSsrcs(packet: array<byte>, len: nat, bitrate: uint32, numSsrc: byte) returns (r: int)
    requires len <= packet.Length
    modifies packet
    ensures r == if numSsrc == 0 || len < 20 + 4 * numSsrc as int then -1 else 20 + 4 * numSsrc as int
    ensures r >= 0 ==> packet[..r] == Message(bitrate, numSsrc) && forall k :: r <= k < len ==> packet[k] == 0
    ensures forall k :: len <= k < packet.Length ==> packet[k] == old(packet[k])
  {
    hide Message, Encode;
    if numSsrc == 0 {
      return -1;
    }
    var minLen := 20 + 4 * numSsrc as int;
    if len < minLen {
      return -1;
    }
    WriteHead(packet, len, minLen / 4 - 1, numSsrc);
    WriteRate(packet, bitrate);
    Assembled(packet[..minLen], bitrate, numSsrc);
    return minLen;
  }

  /** Everything but the rate; what is not written is zero. */
  method WriteHead(packet: array<byte>, len: nat, words: uint16, numSsrc: byte)
    requires 20 <= len <= packet.Length
    modifies packet
    ensures packet[0] == 0x8F && packet[1] == 206 && packet[2] == words / 0x100 && packet[3] == words % 0x100
    ensures packet[12] == 'R' as int && packet[13] == 'E' as int && packet[14] == 'M' as int && packet[15] == 'B' as int
    ensures packet[16] == numSsrc
    ensures forall k :: 4 <= k < 12 || 17 <= k < len ==> packet[k] == 0
    ensures forall k :: len <= k < packet.Length ==> packet[k] == old(packet[k])
  {
    forall k | 0 <= k < len {
      packet[k] := 0;
    }
    packet[0], packet[1], packet[2], packet[3] := 0x8F, 206, words / 0x100, words % 0x100;
    packet[12], packet[13], packet[14], packet[15] := 'R' as int, 'E' as int, 'M' as int, 'B' as int;
    packet[16] := numSsrc;
  }

  method WriteRate(packet: array<byte>, bitrate: uint32)
    requires packet.Length >= 20
    modifies packet
    ensures packet[17..20] == Encode(bitrate)
    ensures forall k :: 0 <= k < packet.Length && !(17 <= k < 20) ==> packet[k] == old(packet[k])
  {
    hide FirstFit, Encode, Exponent, Mantissa;
    var exponent, shift := FindExponent(bitrate);
    var mantissa := ShiftRight(bitrate, shift);
    MantissaIs(bitrate);
    packet[17] := (exponent * 4 + mantissa / 0x1_0000 % 4) % 0x100;
    packet[18] := mantissa / 0x100 % 0x100;
    packet[19] := mantissa % 0x100;
    EncodeIs(bitrate);
  }

  lemma {:induction false} MantissaIs(bitrate: uint32)
    ensures Mantissa(bitrate) == ShiftRight(bitrate, Min(FirstFit(bitrate, 0), 31))
  {
  }

  lemma {:induction false} Assembled(b: seq<byte>, bitrate: uint32, ssrcs: byte)
    requires |b| == 20 + 4 * ssrcs as int
    requires b[0] == 0x8F && b[1] == 206 && b[2] == (4 + ssrcs as int) / 0x100 && b[3] == (4 + ssrcs as int) % 0x100
    requires b[12] == 'R' as int && b[13] == 'E' as int && b[14] == 'M' as int && b[15] == 'B' as int && b[16] == ssrcs
    requires b[17..20] == Encode(bitrate)
    requires forall k :: 4 <= k < 12 || 20 <= k < |b| ==> b[k] == 0
    ensures b == Message(bitrate, ssrcs)
  {
    hide Encode, Bytes16;
    Bytes16Is(4 + ssrcs as int);
    assert b == b[..2] + b[2..4] + b[4..12] + b[12..17] + b[17..20] + b[20..];
    assert b[..2] == [0x8F, 206] && b[2..4] == Bytes16(4 + ssrcs as int) && b[4..12] == Repeat(0, 8);
    assert b[12..17] == ['R' as int, 'E' as int, 'M' as int, 'B' as int, ssrcs];
    assert b[20..] == Repeat(0, 4 * ssrcs as int);
  }

  lemma {:induction false} Bytes16Is(x: uint16)
    ensures Bytes16(x) == [x / 0x100, x % 0x100]
  {
  }

  lemma {:induction false} EncodeIs(bitrate: uint32)
    ensures var e, m := Exponent(bitrate), Mantissa(bitrate);
            Encode(bitrate) == [(e * 4 + m / 0x1_0000 % 4) % 0x100, m / 0x100 % 0x100, m % 0x100]
  {
  }

  method FindExponent(bitrate: uint32) returns (exponent: nat, shift: nat)
    ensures exponent == Exponent(bitrate) && shift == Min(FirstFit(bitrate, 0), 31)
  {
    hide Limit;
    var b := 0;
    exponent := 0;
    while b < 32
      invariant b <= 32 && exponent == 0
      invariant FirstFit(bitrate, 0) == FirstFit(bitrate, b)
    {
      if bitrate <= Limit(b) {
        exponent := b;
        break;
      }
      b := b + 1;
    }
    shift := if b > 31 then 31 else b;
  }

  method IsRemb(packet: array<byte>, at: nat, len: nat) returns (r: bool)
    requires at + 8 <= len <= packet.Length
    ensures r == RembHere(packet[at..len])
  {
    ghost var b := packet[at..len];
    assert forall k :: 0 <= k < |b| ==> b[k] == packet[at + k];
    r := packet[at + 1] == 206 && packet[at] % 32 == 15 && len - at >= 24 && len - at - 12 >= 4 * packet[at + 16] as int
         && packet[at + 12] == 'R' as int && packet[at + 13] == 'E' as int && packet[at + 14] == 'M' as int
         && packet[at + 15] == 'B' as int;
  }

  method RtcpGetRemb(packet: array<byte>, len: nat) returns (bitrate: uint32)
    requires len <= packet.Length
    ensures bitrate == Estimate(packet[..len])
  {
    hide Decode, Be16;
    var at := 0;
    assert packet[0..len] == packet[..len];
    while at < len
      invariant at <= len
      invariant Estimate(packet[..len]) == Estimate(packet[at..len])
    {
      ghost var b := packet[at..len];
      var total := len - at;
      if total < 8 {
        return 0;
      }
      assert b[0] == packet[at];
      var words := Words(packet, at, b);
      if total < 4 * words + 4 {
        return 0;
      }
      if packet[at] / 64 != 2 {
        return 0;
      }
      var found := IsRemb(packet, at, len);
      hide RembHere;
      if found {
        RembSize(b);
        SliceOfSlice(packet[..], at, len, 17, 20);
        return Decode(packet[at + 17..at + 20]);
      }
      if words == 0 {
        return 0;
      }
      SliceOfSlice(packet[..], at, len, 4 * words + 4, total);
      assert b[4 * words + 4..] == packet[at + 4 * words + 4..len];
      at := at + 4 * words + 4;
    }
    return 0;
  }

  lemma {:induction false} RembSize(b: seq<byte>)
    requires RembHere(b)
    ensures |b| >= 24
  {
  }

  method Words(packet: array<byte>, at: nat, ghost b: seq<byte>) returns (words: int)
    requires at + |b| <= packet.Length && |b| >= 4 && b == packet[at..at + |b|]
    ensures words == Be16(b, 2)
  {
    assert b[2] == packet[at + 2] && b[3] == packet[at + 3];
    words := packet[at + 2] as int * 0x100 + packet[at + 3] as int;
  }
}
