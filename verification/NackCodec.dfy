/** The NACK writer and reader as they run, over packet buffers. */
module NackCodec {
  import opened Basics
  import opened NackFormat
  import opened Nack

  // ----- writing -----

  /** The message while its length field is still zero. */
  function Draft(pairs: seq<Pair>): (b: seq<byte>)
    ensures |b| == 12 + 4 * |pairs|
  {
    [0x81, 205, 0, 0] + Repeat(0, 8) + AllBytes(pairs)
  }

  /** The buffer holds the draft, and zeros up to len. */
  predicate Drafted(b: seq<byte>, pairs: seq<Pair>, len: nat) {
    && Draft(pairs) <= b && |Draft(pairs)| <= len <= |b|
    && forall k :: |Draft(pairs)| <= k < len ==> b[k] == 0
  }

  /** Pairs start more than 16 apart, so 16-bit numbers need no more than 3856 of them. */
  lemma {:induction false} PackedFew(nacks: seq<uint16>)
    ensures |Packed(nacks)| <= 3856
    ensures nacks != [] ==> Packed(nacks)[|Packed(nacks)| - 1].pid >= 17 * (|Packed(nacks)| - 1)
    decreases |nacks|
  {
    hide Or;
    if nacks != [] {
      PackedFew(nacks[..|nacks| - 1]);
    }
  }

  lemma {:induction false} PackedGrows(nacks: seq<uint16>, i: nat)
    requires i <= |nacks|
    ensures |Packed(nacks[..i])| <= |Packed(nacks)|
    decreases |nacks| - i
  {
    hide Or;
    if i == |nacks| {
      assert nacks[..i] == nacks;
    } else {
      PackedTo(nacks, i);
      PackedGrows(nacks, i + 1);
    }
  }

  lemma {:induction false} PackedTo(nacks: seq<uint16>, i: nat)
    requires i < |nacks|
    ensures Packed(nacks[..i + 1]) == Add(Packed(nacks[..i]), nacks[i])
  {
    assert nacks[..i + 1][..i] == nacks[..i];
  }

  lemma {:induction false} AllBytesSnoc(pairs: seq<Pair>, p: Pair)
    ensures AllBytes(pairs + [p]) == AllBytes(pairs) + PairBytes(p)
  {
    assert (pairs + [p])[..|pairs|] == pairs;
  }

  /** Where the pair that was added last lies. */
  lemma {:induction false} DraftLast(b: seq<byte>, pairs: seq<Pair>, p: Pair, len: nat)
    requires Drafted(b, pairs + [p], len)
    ensures var e := 12 + 4 * |pairs|;
            b[e..e + 4] == PairBytes(p) && b[..e] == Draft(pairs)
  {
    hide PairBytes;
    var e := 12 + 4 * |pairs|;
    AllBytesSnoc(pairs, p);
    assert Draft(pairs + [p]) == Draft(pairs) + PairBytes(p);
    assert b[..e + 4] == Draft(pairs + [p]);
    assert b[..e] == b[..e + 4][..e];
    assert b[e..e + 4] == b[..e + 4][e..];
  }

  lemma {:induction false} DraftAgain(b: seq<byte>, pairs: seq<Pair>, p: Pair, len: nat)
    requires 16 + 4 * |pairs| <= len <= |b|
    requires b[..12 + 4 * |pairs|] == Draft(pairs) && b[12 + 4 * |pairs|..16 + 4 * |pairs|] == PairBytes(p)
    requires forall k :: 16 + 4 * |pairs| <= k < len ==> b[k] == 0
    ensures Drafted(b, pairs + [p], len)
  {
    hide PairBytes;
    AllBytesSnoc(pairs, p);
    var e := 12 + 4 * |pairs|;
    assert Draft(pairs + [p]) == Draft(pairs) + PairBytes(p);
    assert b[..e + 4] == b[..e] + b[e..e + 4];
  }

  method Put16(packet: array<byte>, at: nat, x: uint16)
    requires at + 2 <= packet.Length
    modifies packet
    ensures packet[at..at + 2] == Bytes16(x)
    ensures forall k :: 0 <= k < packet.Length && !(at <= k < at + 2) ==> packet[k] == old(packet[k])
  {
    packet[at], packet[at + 1] := x / 0x100, x % 0x100;
  }

  /** Writes a pair with an empty mask behind the draft. */
  method NewPair(packet: array<byte>, at: nat, npid: uint16, len: nat, ghost pairs: seq<Pair>)
    requires at == 12 + 4 * |pairs| && at + 4 <= len <= packet.Length
    requires Drafted(packet[..], pairs, len)
    modifies packet
    ensures Drafted(packet[..], pairs + [Pair(npid, 0)], len)
    ensures packet[len..] == old(packet[len..])
  {
    hide Draft;
    ghost var b := packet[..];
    Put16(packet, at, npid);
    assert packet[at..at + 4] == Bytes16(npid) + [0, 0];
    assert PairBytes(Pair(npid, 0)) == Bytes16(npid) + [0, 0];
    assert packet[..][..at] == b[..at];
    DraftAgain(packet[..], pairs, Pair(npid, 0), len);
  }

  /** Marks one more packet in the mask of the last pair. */
  method MarkPair(packet: array<byte>, at: nat, k: nat, len: nat, ghost pairs: seq<Pair>, ghost p: Pair)
    requires k < 16 && at == 12 + 4 * |pairs| && at + 4 <= len <= packet.Length
    requires Drafted(packet[..], pairs + [p], len)
    modifies packet
    ensures Or(p.blp, k) < 0x1_0000 && Drafted(packet[..], pairs + [Pair(p.pid, Or(p.blp, k))], len)
    ensures packet[len..] == old(packet[len..])
  {
    hide Draft, Or, Drafted;
    ghost var b := packet[..];
    Zeros(b, pairs + [p], len);
    DraftLast(b, pairs, p, len);
    PairBack(b, at, p);
    OrFits(p.blp, k);
    var blp := packet[at + 2] as int * 0x100 + packet[at + 3] as int;
    assert blp == p.blp;
    blp := Or(blp, k);
    Put16(packet, at + 2, blp);
    ghost var q := Pair(p.pid, blp);
    assert packet[at..at + 4] == packet[at..at + 2] + packet[at + 2..at + 4];
    assert packet[at..at + 2] == b[at..at + 2] == b[at..at + 4][..2] == PairBytes(p)[..2];
    assert packet[at..at + 4] == PairBytes(q);
    assert packet[..][..at] == b[..at];
    DraftAgain(packet[..], pairs, q, len);
  }

  lemma {:induction false} Zeros(b: seq<byte>, pairs: seq<Pair>, len: nat)
    requires Drafted(b, pairs, len)
    ensures forall k :: 12 + 4 * |pairs| <= k < len ==> b[k] == 0
  {
  }

  /**
   Writes the message of the packed list; r is its length, or -1 when there is nothing to write or the
   buffer is too small for it.
   */
  method RtcpNacks(packet: array<byte>, len: nat, nacks: seq<uint16>) returns (r: int)
    requires len <= packet.Length
    modifies packet
    ensures |Packed(nacks)| < 0xFFFE
    ensures r == if len < 16 || nacks == [] || len < 12 + 4 * |Packed(nacks)| then -1 else 12 + 4 * |Packed(nacks)|
    ensures r >= 0 ==> r <= len && packet[..r] == Message(Packed(nacks)) && forall k :: r <= k < len ==> packet[k] == 0
    ensures packet[len..] == old(packet[len..])
  {
    hide Packed, Add, Or, Drafted, AllBytes;
    PackedFew(nacks);
    if len < 16 || nacks == [] {
      return -1;
    }
    forall k | 0 <= k < len {
      packet[k] := 0;
    }
    packet[0], packet[1] := 0x81, 205;
    assert packet[len..] == old(packet[len..]);
    NoPairs(packet[..], len);
    var pid := nacks[0];
    NewPair(packet, 12, pid, len, []);
    var words := 3;
    var i := 1;
    FirstPacked(nacks);
    while i < |nacks|
      invariant 1 <= i <= |nacks|
      invariant words == 2 + |Packed(nacks[..i])| && words * 4 + 4 <= len
      invariant |Packed(nacks[..i])| > 0 && pid == Packed(nacks[..i])[|Packed(nacks[..i])| - 1].pid
      invariant Drafted(packet[..], Packed(nacks[..i]), len)
      invariant packet[len..] == old(packet[len..])
    {
      ghost var pairs := Packed(nacks[..i]);
      ghost var init, last := pairs[..|pairs| - 1], pairs[|pairs| - 1];
      assert pairs == init + [last];
      PackedTo(nacks, i);
      AddCases(pairs, nacks[i]);
      var npid := nacks[i];
      var gap := npid as int - pid as int;
      if gap < 1 {
      } else if gap > 16 {
        words := words + 1;
        if len < words * 4 + 4 {
          PackedGrows(nacks, i + 1);
          return -1;
        }
        NewPair(packet, words * 4, npid, len, pairs);
        pid := npid;
      } else {
        MarkPair(packet, words * 4, gap - 1, len, init, last);
      }
      i := i + 1;
    }
    assert nacks[..i] == nacks;
    r := words * 4 + 4;
    ghost var draft := packet[..];
    Put16(packet, 2, words);
    Finished(draft, packet[..], Packed(nacks), len);
    assert packet[..][..r] == packet[..r];
  }

  /** With its length filled in, the draft is the message. */
  lemma {:induction false} Finished(draft: seq<byte>, b: seq<byte>, pairs: seq<Pair>, len: nat)
    requires Drafted(draft, pairs, len) && |pairs| < 0xFFFE && |b| == |draft|
    requires b[2..4] == Bytes16(2 + |pairs|) && forall k :: 0 <= k < |b| && !(2 <= k < 4) ==> b[k] == draft[k]
    ensures b[..12 + 4 * |pairs|] == Message(pairs) && forall k :: 12 + 4 * |pairs| <= k < len ==> b[k] == 0
  {
    var n := 12 + 4 * |pairs|;
    var m := b[..n];
    assert draft[..n] == Draft(pairs);
    assert m == m[..2] + b[2..4] + m[4..12] + m[12..];
    assert m[..2] == draft[..n][..2] == [0x81, 205];
    assert m[4..12] == draft[..n][4..12] == Repeat(0, 8);
    assert m[12..] == draft[..n][12..] == AllBytes(pairs);
  }

  lemma {:induction false} NoPairs(b: seq<byte>, len: nat)
    requires 16 <= len <= |b| && b[0] == 0x81 && b[1] == 205 && forall k :: 2 <= k < len ==> b[k] == 0
    ensures Drafted(b, [], len)
  {
    assert b[..12] == Draft([]);
  }

  lemma {:induction false} FirstPacked(nacks: seq<uint16>)
    requires nacks != []
    ensures Packed(nacks[..1]) == [] + [Pair(nacks[0], 0)]
  {
    assert nacks[..1][..0] == [];
  }

  lemma {:induction false} AddCases(pairs: seq<Pair>, npid: uint16)
    requires pairs != []
    ensures var l := |pairs| - 1;
            var last := pairs[l];
            if npid - last.pid < 1 then Add(pairs, npid) == pairs
            else if npid - last.pid > 16 then Add(pairs, npid) == pairs + [Pair(npid, 0)]
            else
              var k := npid - last.pid - 1;
              Or(last.blp, k) < 0x1_0000 && Add(pairs, npid) == pairs[..l] + [Pair(last.pid, Or(last.blp, k))]
  {
    hide Or;
    if 1 <= npid - pairs[|pairs| - 1].pid <= 16 {
      OrFits(pairs[|pairs| - 1].blp, npid - pairs[|pairs| - 1].pid - 1);
    }
  }

  // ----- reading -----

  /** The packets of the first NACK message in a compound packet. */
  method RtcpGetNacks(packet: array<byte>, len: nat) returns (list: seq<nat>)
    requires len <= packet.Length
    ensures list == Decode(packet[..len])
  {
    hide Unpacked, PairsAt, Marked, Bit, Be16;
    var at := 0;
    assert packet[0..len] == packet[..len];
    while at < len
      invariant at <= len
      invariant Decode(packet[..len]) == Decode(packet[at..len])
    {
      ghost var b := packet[at..len];
      var total := len - at;
      if total < 8 {
        return [];
      }
      var words: int := Word(packet, at, 2, b);
      if total < 4 * words + 4 {
        return [];
      }
      if packet[at] / 64 != 2 {
        return [];
      }
      assert b[0] == packet[at] && b[1] == packet[at + 1];
      if packet[at + 1] == 205 && packet[at] % 32 == 1 {
        if total < 16 {
          return [];
        }
        if words < 3 {
          return [];
        }
        list := ReadPairs(packet, at, len, words - 2);
        return;
      }
      if words == 0 {
        return [];
      }
      assert b[4 * words + 4..] == packet[at + 4 * words + 4..len];
      at := at + 4 * words + 4;
    }
    return [];
  }

  method Word(packet: array<byte>, at: nat, i: nat, ghost b: seq<byte>) returns (x: uint16)
    requires at + |b| <= packet.Length && b == packet[at..at + |b|] && i + 2 <= |b|
    ensures x == Be16(b, i)
  {
    assert b[i] == packet[at + i] && b[i + 1] == packet[at + i + 1];
    x := packet[at + i] as int * 0x100 + packet[at + i + 1] as int;
  }

  method ReadPairs(packet: array<byte>, at: nat, len: nat, n: nat) returns (list: seq<nat>)
    requires at + 12 + 4 * n <= len <= packet.Length
    ensures list == Unpacked(PairsAt(packet[at..len], 12, n))
  {
    hide Bit, Be16;
    ghost var b := packet[at..len];
    list := [];
    var i := 0;
    while i < n
      invariant i <= n
      invariant list == Unpacked(PairsAt(b, 12, i))
    {
      var pid := Word(packet, at, 12 + 4 * i, b);
      var blp := Word(packet, at, 14 + 4 * i, b);
      ghost var p := Pair(pid, blp);
      ghost var before := list;
      assert PairsAt(b, 12, i + 1) == PairsAt(b, 12, i) + [p];
      list := list + [pid as nat];
      var j := 0;
      while j < 16
        invariant j <= 16
        invariant list == before + ([pid as nat] + Marked(p, j))
      {
        if Bit(blp, j) {
          list := list + [pid as int + j + 1];
        }
        j := j + 1;
      }
      UnpackedSnoc(PairsAt(b, 12, i), p);
      i := i + 1;
    }
  }

  /** What is written for a list in order is read back as that list, without repetitions. */
  lemma {:induction false} NackRoundTrip(nacks: seq<uint16>)
    requires nacks != [] && NonDescending(nacks)
    ensures |Packed(nacks)| < 0xFFFE
    ensures Decode(Message(Packed(nacks))) == Distinct(nacks)
    ensures Ascending(nacks) ==> Decode(Message(Packed(nacks))) == nacks
  {
    hide Decode, Message, Packed, Distinct;
    PackedFew(nacks);
    PackedUnpacked(nacks);
    MessageDecodes(Packed(nacks));
    if Ascending(nacks) {
      DistinctAscending(nacks);
    }
  }
}
