/** Generic NACK feedback, section 6.2.1 of RFC 4585: pairs of a packet id and a bit mask. */
module NackFormat {
  import opened Basics

  /** A lost packet, and in the mask which of the 16 that follow it are lost too. */
  datatype Pair = Pair(pid: uint16, blp: uint16)

  predicate Bit(x: nat, k: nat) {
    x / Pow2(k) % 2 == 1
  }

  /** x | 1 << k. */
  function Or(x: nat, k: nat): nat {
    if Bit(x, k) then x else x + Pow2(k)
  }

  // ----- packing -----

  /** One more lost packet: it is skipped, marked in the last pair, or starts a new pair. */
  function Add(pairs: seq<Pair>, npid: uint16): (r: seq<Pair>)
    requires forall i :: 0 <= i < |pairs| ==> pairs[i].blp < 0x1_0000
    ensures r != []
  {
    if pairs == [] then [Pair(npid, 0)]
    else
      var last := pairs[|pairs| - 1];
      if npid - last.pid < 1 then pairs
      else if npid - last.pid > 16 then pairs + [Pair(npid, 0)]
      else
        OrFits(last.blp, npid - last.pid - 1);
        pairs[..|pairs| - 1] + [Pair(last.pid, Or(last.blp, npid - last.pid - 1))]
  }

  /** The pairs for a list of lost packets. */
  function Packed(nacks: seq<uint16>): (r: seq<Pair>)
    ensures nacks == [] <==> r == []
  {
    if nacks == [] then [] else Add(Packed(nacks[..|nacks| - 1]), nacks[|nacks| - 1])
  }

  // ----- unpacking -----

  /** The packets that the low n bits of a mask stand for. */
  function Marked(p: Pair, n: nat): seq<nat> {
    if n == 0 then [] else Marked(p, n - 1) + if Bit(p.blp, n - 1) then [p.pid + n] else []
  }

  function Members(p: Pair): seq<nat> {
    [p.pid as nat] + Marked(p, 16)
  }

  function Unpacked(pairs: seq<Pair>): seq<nat> {
    if pairs == [] then [] else Unpacked(pairs[..|pairs| - 1]) + Members(pairs[|pairs| - 1])
  }

  // ----- bytes -----

  function PairBytes(p: Pair): (b: seq<byte>)
    ensures |b| == 4
  {
    Bytes16(p.pid) + Bytes16(p.blp)
  }

  function AllBytes(pairs: seq<Pair>): (b: seq<byte>)
    ensures |b| == 4 * |pairs|
  {
    if pairs == [] then [] else AllBytes(pairs[..|pairs| - 1]) + PairBytes(pairs[|pairs| - 1])
  }

  /** Version 2, format 1, type 205, the length in words, two SSRCs left zero. */
  function Message(pairs: seq<Pair>): seq<byte>
    requires |pairs| < 0xFFFE
  {
    [0x81, 205] + Bytes16(2 + |pairs|) + Repeat(0, 8) + AllBytes(pairs)
  }

  function PairsAt(b: seq<byte>, at: nat, n: nat): seq<Pair>
    requires at + 4 * n <= |b|
  {
    if n == 0 then [] else PairsAt(b, at, n - 1) + [Pair(Be16(b, at + 4 * n - 4), Be16(b, at + 4 * n - 2))]
  }

  /**
   What a decoder finds in a compound packet: the packets of its first NACK message.  A malformed
   packet on the way yields nothing.
   */
  function Decode(b: seq<byte>): seq<nat>
    decreases |b|
  {
    if |b| < 8 then []
    else
      var words := Be16(b, 2) as nat;
      if |b| < 4 * words + 4 || b[0] / 64 != 2 then []
      else if b[1] == 205 && b[0] % 32 == 1 then
        if |b| < 16 || words < 3 then [] else Unpacked(PairsAt(b, 12, words - 2))
      else if words == 0 then []
      else Decode(b[4 * words + 4..])
  }

  // ----- arithmetic of masks -----

  /** A number with bit k clear leaves room for it. */
  lemma {:induction false} OrFits(x: nat, k: nat)
    requires x < 0x1_0000 && k < 16
    ensures Or(x, k) < 0x1_0000
  {
    if !Bit(x, k) {
      var p := Pow2(k);
      var q := x / p;
      Pow2Sum(k, 16 - k);
      Pow2Values();
      var h := Pow2(15 - k);
      assert Pow2(16 - k) == 2 * h;
      QuotientFits(x, p, q, h);
    }
  }

  lemma {:induction false} QuotientFits(x: nat, p: nat, q: nat, h: nat)
    requires p > 0 && q == x / p && q % 2 == 0 && p * (2 * h) == 0x1_0000 && x < 0x1_0000
    ensures x + p < 0x1_0000
  {
    MulMono(2 * h, q, p);
    MulMono(q + 2, 2 * h, p);
    assert q * p <= x < (q + 1) * p;
  }

  /** Adding a higher bit changes no lower one. */
  lemma {:induction false} LowBits(x: nat, k: nat, j: nat)
    requires x < Pow2(k) && j < k
    ensures Bit(x + Pow2(k), j) <==> Bit(x, j)
  {
    Pow2Sum(j, k - j);
    var p, h := Pow2(j), Pow2(k - j - 1);
    assert Pow2(k) == p * (2 * h);
    Quotient(x, p, 2 * h);
    assert (x / p + 2 * h) % 2 == x / p % 2;
  }

  lemma {:induction false} Quotient(x: nat, p: nat, m: nat)
    requires p > 0
    ensures (x + p * m) / p == x / p + m
  {
    var q, r := x / p, x % p;
    assert x + p * m == (q + m) * p + r;
    DivIs(x + p * m, p, q + m);
  }

  lemma {:induction false} HighBits(x: nat, k: nat)
    requires x < Pow2(k)
    ensures !Bit(x, k) && Bit(x + Pow2(k), k)
  {
    var p := Pow2(k);
    DivIs(x, p, 0);
    Quotient(x, p, 1);
  }

  lemma {:induction false} NoHighBits(x: nat, k: nat, j: nat)
    requires x < Pow2(k) && k <= j
    ensures !Bit(x, j)
  {
    Pow2Mono(k, j);
    DivIs(x, Pow2(j), 0);
  }
}
