/**
 The streaming side of MD5 (RFC 1321): blocks, counts and padding.  The compression of one block is a
 parameter.
 */
module Md5 {
  import opened Basics

  const TWO64 := 0x1_0000_0000_0000_0000

  type State = s: seq<uint32> | |s| == 4 witness [0, 0, 0, 0]
  type Block = s: seq<byte> | |s| == 64 witness Repeat(0, 64)
  type Transform = (State, Block) -> State

  const INITIAL: State := [0x6745_2301, 0xEFCD_AB89, 0x98BA_DCFE, 0x1032_5476]

  // ----- the reference -----

  /** The state after all full blocks of a message. */
  function Fold(t: Transform, s: State, m: seq<byte>): State
    decreases |m|
  {
    if |m| < 64 then s else Fold(t, t(s, m[..64]), m[64..])
  }

  /** The bytes after the last full block. */
  function Remainder(m: seq<byte>): seq<byte> {
    m[|m| - |m| % 64..]
  }

  predicate Aligned(n: nat, p: nat) {
    (n + p) % 64 == 56
  }

  /** Section 3.1: one bit, then zeros, up to 8 bytes short of a full block. */
  function PadLength(n: nat): (p: nat)
    ensures 1 <= p <= 64 && Aligned(n, p)
    ensures forall q :: 1 <= q < p ==> !Aligned(n, q)
  {
    if n % 64 < 56 then 56 - n % 64 else 120 - n % 64
  }

  function Padding(n: nat): (b: seq<byte>)
    ensures |b| == PadLength(n)
  {
    [0x80] + Repeat(0, PadLength(n) - 1)
  }

  function AllLowFirst(words: seq<uint32>): (b: seq<byte>)
    ensures |b| == 4 * |words|
  {
    if words == [] then [] else AllLowFirst(words[..|words| - 1]) + LowFirst(words[|words| - 1])
  }

  /** Section 3.2: the length in bits, modulo 2^64, as two words with the low bytes first. */
  function LengthBytes(n: nat): (b: seq<byte>)
    ensures |b| == 8
  {
    AllLowFirst([8 * n % TWO64 % TWO32, 8 * n % TWO64 / TWO32])
  }

  function Padded(m: seq<byte>): seq<byte> {
    m + Padding(|m|) + LengthBytes(|m|)
  }

  function Digest(t: Transform, m: seq<byte>): (d: seq<byte>)
    ensures |d| == 16
  {
    AllLowFirst(Fold(t, INITIAL, Padded(m)))
  }

  /** The padded message is made of whole blocks and is the shortest that is. */
  lemma {:induction false} PaddedBlocks(m: seq<byte>)
    ensures |Padded(m)| % 64 == 0 && m <= Padded(m) && |m| + 9 <= |Padded(m)| <= |m| + 72
  {
    hide LengthBytes;
    assert Aligned(|m|, PadLength(|m|));
  }

  // ----- blocks -----

  lemma {:induction false} FoldConcat(t: Transform, s: State, a: seq<byte>, b: seq<byte>)
    requires |a| % 64 == 0
    ensures Fold(t, s, a + b) == Fold(t, Fold(t, s, a), b)
    decreases |a|
  {
    if a == [] {
      assert a + b == b;
    } else {
      assert (a + b)[..64] == a[..64] && (a + b)[64..] == a[64..] + b;
      FoldConcat(t, t(s, a[..64]), a[64..], b);
    }
  }

  lemma {:induction false} FoldBlock(t: Transform, s: State, b: Block)
    ensures Fold(t, s, b) == t(s, b)
  {
    assert b[..64] == b && b[64..] == [];
  }

  /** The full blocks of a message are those of its front, without the remainder. */
  lemma {:induction false} FoldFront(t: Transform, s: State, m: seq<byte>)
    ensures Fold(t, s, m) == Fold(t, s, m[..|m| - |m| % 64])
  {
    var k := |m| - |m| % 64;
    assert m == m[..k] + m[k..];
    FoldConcat(t, s, m[..k], m[k..]);
  }

  /** One more full block. */
  lemma {:induction false} FoldNext(t: Transform, s: State, front: seq<byte>, b: Block)
    requires |front| % 64 == 0
    ensures Fold(t, s, front + b) == t(Fold(t, s, front), b)
  {
    FoldConcat(t, s, front, b);
    FoldBlock(t, Fold(t, s, front), b);
  }

  // ----- the loop over blocks -----

  /** The test of the loop over full blocks, in 32-bit arithmetic. */
  predicate Goes(i: uint32, length: uint32) {
    (i as int + 63) % TWO32 < length
  }

  /** The index before pass k of the loop. */
  function Turn(partLen: nat, k: nat): uint32 {
    (partLen + 64 * k) % TWO32
  }

  /** No index at which the test wraps lies within the piece. */
  predicate Ends(length: uint32, partLen: nat) {
    length < partLen || forall i {:trigger i % 64} :: TWO32 - 63 <= i <= length ==> i % 64 != partLen % 64
  }

  /** The loop ends exactly when Ends; otherwise its index wraps back to its start for ever. */
  lemma {:induction false} EndsExactly(length: uint32, partLen: nat)
    requires 1 <= partLen <= 64 && partLen <= length
    ensures Ends(length, partLen) <==> exists k: nat :: !Goes(Turn(partLen, k), length)
  {
    if Ends(length, partLen) {
      var k := (length - partLen) / 64;
      var i := partLen + 64 * k;
      assert i % 64 == partLen % 64 && length - 64 < i <= length;
      assert i % 64 != partLen % 64 || i < TWO32 - 63;
      assert !Goes(Turn(partLen, k), length);
    } else {
      var i :| TWO32 - 63 <= i <= length && i % 64 == partLen % 64;
      forall k: nat ensures Goes(Turn(partLen, k), length) {
        TurnResidue(partLen, k);
        GoesOn(length, partLen, i, Turn(partLen, k));
      }
    }
  }

  lemma {:induction false} TurnResidue(partLen: nat, k: nat)
    ensures Turn(partLen, k) % 64 == partLen % 64
  {
  }

  /** Before a wrapping index lies a whole block; at it the sum is small. */
  lemma {:induction false} GoesOn(length: uint32, partLen: nat, i: uint32, j: uint32)
    requires TWO32 - 63 <= i <= length && i % 64 == partLen % 64 && j % 64 == partLen % 64
    ensures Goes(j, length)
  {
    if j as int + 63 < TWO32 {
      assert j as int % 64 == i as int % 64 && j < i;
      assert j as int + 64 <= i as int;
    }
  }

  /** A piece for which it does not end: 63 bytes short of 2^32, behind 63 bytes in the buffer. */
  lemma {:induction false} NeverEnds()
    ensures !Ends(TWO32 - 63, 1) && forall k: nat :: Goes(Turn(1, k), TWO32 - 63)
  {
    assert (TWO32 - 63) % 64 == 1;
    EndsExactly(TWO32 - 63, 1);
  }

  // ----- the context -----

  class Md5Context {
    const transform: Transform
    var state: State
    var count0: uint32
    var count1: uint32
    const buffer: array<byte>
    ghost var message: seq<byte>  // everything that has come

    /** The state covers the full blocks, the buffer holds the rest, the counts are the length in bits. */
    ghost predicate Valid()
      reads this, buffer
    {
      && buffer.Length == 64
      && state == Fold(transform, INITIAL, message)
      && buffer[..|message| % 64] == Remainder(message)
      && count0 as int + count1 as int * TWO32 == 8 * |message| % TWO64
    }

    constructor (t: Transform)
      ensures Valid() && message == [] && transform == t && fresh(buffer)
    {
      hide Fold, Remainder, LengthBytes, Padded, PadLength;
      transform := t;
      count0, count1 := 0, 0;
      state := INITIAL;
      buffer := new byte[64];
      message := [];
      Nothing(t, []);
      NoRemainder([]);
    }

    /** Adds 8 bits for each byte to the two count words. */
    method Count(n: uint32)
      modifies this`count0, this`count1
      ensures count0 as int + count1 as int * TWO32 ==
              (old(count0) as int + old(count1) as int * TWO32 + 8 * n as int) % TWO64
    {
      var bits := n as int * 8 % TWO32;
      CountWords(count0, count1, n);
      count0 := (count0 as int + bits) % TWO32;
      if count0 < bits {
        count1 := (count1 as int + 1) % TWO32;
      }
      count1 := (count1 as int + n as int / 0x2000_0000) % TWO32;
    }

    method Fill(index: nat, bytes: seq<byte>)
      requires index + |bytes| <= buffer.Length
      modifies buffer
      ensures buffer[..index + |bytes|] == old(buffer[..index]) + bytes
    {
      forall k | 0 <= k < |bytes| {
        buffer[index + k] := bytes[k];
      }
    }

    /** More of the message, in pieces of any size for which the loop over blocks ends. */
    method Update(input: seq<byte>)
      requires Valid() && |input| < TWO32 && Ends(|input|, 64 - |message| % 64)
      modifies this`state, this`count0, this`count1, this`message, buffer
      ensures Valid() && message == old(message) + input
    {
      hide Fold, Remainder;
      ghost var before := message;
      var index := count0 as int / 8 % 64;
      IndexIs(count0, count1, |message|);
      Count(|input|);
      CountIs(count0 as int + count1 as int * TWO32, |before|, |input|);
      var partLen := 64 - index;
      var i := 0;
      message := message + input;
      assert before + input[..0] == before;
      if |input| >= partLen {
        Fill(index, input[..partLen]);
        FirstBlock(before, input, index);
        i := TransformBlocks(input, partLen, before);
        index := 0;
      }
      Rest(before, input, i, index);
      if i < |input| {
        Fill(index, input[i..]);
      } else {
        assert input[i..] == [] && Remainder(before) + [] == Remainder(before);
      }
      FinishUpdate(before, input, i, index);
    }

    /** The buffer, which is full, and then every full block of the input. */
    method TransformBlocks(input: seq<byte>, partLen: nat, ghost before: seq<byte>) returns (i: nat)
      requires 1 <= partLen <= 64 && partLen <= |input| < TWO32 && Ends(|input|, partLen) && (|before| + partLen) % 64 == 0
      requires buffer.Length == 64 && state == Fold(transform, INITIAL, before)
      requires before[..|before| - |before| % 64] + buffer[..64] == before + input[..partLen]
      modifies this`state
      ensures partLen <= i <= |input| && |input| - i < 64 && (|before| + i) % 64 == 0
      ensures state == Fold(transform, INITIAL, before + input[..i])
    {
      hide Fold;
      assert buffer[..] == buffer[..64];
      FoldFront(transform, INITIAL, before);
      FoldNext(transform, INITIAL, before[..|before| - |before| % 64], buffer[..]);
      state := transform(state, buffer[..]);
      i := partLen;
      NoWrap(|before|, partLen, i, |input|);
      while (i + 63) % TWO32 < |input|
        invariant partLen <= i <= |input| && (|before| + i) % 64 == 0 && i + 63 < TWO32
        decreases |input| - i
        invariant state == Fold(transform, INITIAL, before + input[..i])
      {
        var block := input[i..i + 64];
        FoldNext(transform, INITIAL, before + input[..i], block);
        assert before + input[..i] + block == before + input[..i + 64];
        state := transform(state, block);
        i := (i + 64) % TWO32;
        NoWrap(|before|, partLen, i, |input|);
      }
    }

    /** Pads the message and returns its digest; the context is cleared. */
    method Final() returns (digest: seq<byte>)
      requires Valid()
      modifies this`state, this`count0, this`count1, this`message, buffer
      ensures digest == Digest(transform, old(message))
      ensures state == [0, 0, 0, 0] && count0 == 0 && count1 == 0 && forall k :: 0 <= k < 64 ==> buffer[k] == 0
    {
      hide Fold, Remainder, AllLowFirst, LengthBytes, Padding, PadLength;
      ghost var m := message;
      var bits := Encode([count0, count1]);
      CountBytes(count0, count1, |m|);
      var index := count0 as int / 8 % 64;
      IndexIs(count0, count1, |m|);
      var padLen := if index < 56 then 56 - index else 120 - index;
      PaddingIs(|m|, index);
      Update(PADDING[..padLen]);
      Update(bits);
      digest := Encode(state);
      state, count0, count1 := [0, 0, 0, 0], 0, 0;
      forall k | 0 <= k < 64 {
        buffer[k] := 0;
      }
    }

    /** What is left over: the state is already that of the whole message. */
    lemma {:induction false} FinishUpdate(before: seq<byte>, input: seq<byte>, i: nat, index: nat)
      requires i <= |input| && message == before + input && index == (|before| + i) % 64 && index + |input| - i < 64
      requires i == 0 || index == 0
      requires state == Fold(transform, INITIAL, before + input[..i])
      ensures state == Fold(transform, INITIAL, message)
    {
      var k := |before| + i - index;
      assert message[..|message| - |message| % 64] == message[..k];
      FoldFront(transform, INITIAL, message);
      FoldFront(transform, INITIAL, before + input[..i]);
      assert (before + input[..i])[..k] == message[..k];
    }
  }

  /** The words of a sequence, one after the other, low bytes first. */
  method Encode(words: seq<uint32>) returns (output: seq<byte>)
    ensures output == AllLowFirst(words)
  {
    output := [];
    var i := 0;
    while i < |words|
      invariant i <= |words| && output == AllLowFirst(words[..i])
    {
      assert words[..i + 1][..i] == words[..i];
      output := output + [words[i] % 0x100, words[i] / 0x100 % 0x100, words[i] / 0x1_0000 % 0x100, words[i] / 0x100_0000];
      i := i + 1;
    }
    assert words[..i] == words;
  }

  /** However a message is cut into updates, its digest is that of the whole message. */
  method DigestOf(t: Transform, pieces: seq<seq<byte>>) returns (digest: seq<byte>)
    requires forall k :: 0 <= k < |pieces| ==>
               |pieces[k]| < TWO32 && Ends(|pieces[k]|, 64 - |Flatten(pieces[..k])| % 64)
    ensures digest == Digest(t, Flatten(pieces))
  {
    hide Flatten, Digest, Fold, Padded;
    var context := new Md5Context(t);
    var k := 0;
    Joined(pieces);
    while k < |pieces|
      invariant k <= |pieces| && fresh(context) && fresh(context.buffer)
      invariant context.Valid() && context.transform == t && context.message == Flatten(pieces[..k])
    {
      context.Update(pieces[k]);
      assert pieces[..k + 1] == pieces[..k] + [pieces[k]];
      FlattenSnoc(pieces[..k], pieces[k]);
      k := k + 1;
    }
    digest := context.Final();
  }

  lemma {:induction false} Joined(pieces: seq<seq<byte>>)
    ensures Flatten(pieces[..0]) == [] && pieces[..|pieces|] == pieces
  {
  }

  lemma {:induction false} CountBytes(c0: uint32, c1: uint32, n: nat)
    requires c0 as int + c1 as int * TWO32 == 8 * n % TWO64
    ensures AllLowFirst([c0, c1]) == LengthBytes(n)
  {
    hide AllLowFirst;
    assert 8 * n % TWO64 % TWO32 == c0 && 8 * n % TWO64 / TWO32 == c1;
  }

  lemma {:induction false} PaddingIs(n: nat, index: nat)
    requires index == n % 64
    ensures PadLength(n) == if index < 56 then 56 - index else 120 - index
    ensures Padding(n) == PADDING[..PadLength(n)]
  {
  }

  const PADDING: seq<byte> := [0x80] + Repeat(0, 63)

  lemma {:induction false} Nothing(t: Transform, m: seq<byte>)
    requires |m| == 0
    ensures Fold(t, INITIAL, m) == INITIAL
  {
  }

  lemma {:induction false} NoRemainder(m: seq<byte>)
    requires |m| == 0
    ensures Remainder(m) == []
  {
  }

  lemma {:induction false} ModWords(lo: nat, hi: nat)
    requires lo < TWO32
    ensures (lo + hi * TWO32) % TWO64 == lo + hi % TWO32 * TWO32
  {
    var k, r := hi / TWO32, hi % TWO32;
    assert lo + hi * TWO32 == k * TWO64 + (lo + r * TWO32);
    WholeTurns(k, lo + r * TWO32);
  }

  lemma {:induction false} WholeTurns(k: nat, r: nat)
    requires r < TWO64
    ensures (k * TWO64 + r) % TWO64 == r
  {
  }

  /** The two words after the carry and the high bits are added. */
  lemma {:induction false} CountWords(c0: uint32, c1: uint32, n: uint32)
    ensures var bits := n as int * 8 % TWO32;
            var lo := (c0 as int + bits) % TWO32;
            var carried := if lo < bits then (c1 as int + 1) % TWO32 else c1 as int;
            lo + (carried + n as int / 0x2000_0000) % TWO32 * TWO32 == (c0 as int + c1 as int * TWO32 + 8 * n as int) % TWO64
  {
    var bits, q := n as int * 8 % TWO32, n as int / 0x2000_0000;
    BitWords(n);
    var lo := (c0 as int + bits) % TWO32;
    var carry := if lo < bits then 1 else 0;
    Carried(c0, bits);
    assert c0 as int + c1 as int * TWO32 + 8 * n as int == lo + (c1 as int + q + carry) * TWO32;
    ModWords(lo, c1 as int + q + carry);
    SumWords(c1, q, carry);
  }

  lemma {:induction false} BitWords(n: uint32)
    ensures n as int * 8 == n as int / 0x2000_0000 * TWO32 + n as int * 8 % TWO32
  {
  }

  lemma {:induction false} Carried(a: uint32, b: uint32)
    ensures var lo := (a as int + b as int) % TWO32;
            a as int + b as int == lo + (if lo < b as int then TWO32 else 0)
  {
  }

  lemma {:induction false} SumWords(c: uint32, q: nat, carry: nat)
    requires carry <= 1
    ensures ((if carry == 1 then (c as int + 1) % TWO32 else c as int) + q) % TWO32 == (c as int + q + carry) % TWO32
  {
  }

  lemma {:induction false} IndexIs(c0: uint32, c1: uint32, n: nat)
    requires c0 as int + c1 as int * TWO32 == 8 * n % TWO64
    ensures c0 as int / 8 % 64 == n % 64
  {
  }

  lemma {:induction false} CountIs(c: int, n: nat, m: nat)
    requires c == (8 * n % TWO64 + 8 * m) % TWO64
    ensures c == 8 * (n + m) % TWO64
  {
  }

  /** The buffer, filled up, is the block that the message began with. */
  lemma {:induction false} FirstBlock(before: seq<byte>, input: seq<byte>, index: nat)
    requires index == |before| % 64 && |input| >= 64 - index
    ensures before[..|before| - index] + (Remainder(before) + input[..64 - index]) == before + input[..64 - index]
    ensures (|before| + 64 - index) % 64 == 0
  {
  }

  /** Where the loop ends, the index never reaches a wrapping one. */
  lemma {:induction false} NoWrap(n: nat, partLen: nat, i: nat, length: uint32)
    requires 1 <= partLen <= 64 && partLen <= length && Ends(length, partLen)
    requires i <= length && (n + i) % 64 == 0 == (n + partLen) % 64
    ensures i + 63 < TWO32
  {
    assert i % 64 == partLen % 64;
  }

  lemma {:induction false} Rest(before: seq<byte>, input: seq<byte>, i: nat, index: nat)
    requires i <= |input|
    requires (i == 0 && index == |before| % 64 && index + |input| < 64)
             || (index == 0 && (|before| + i) % 64 == 0 && |input| - i < 64)
    ensures var m := before + input;
            Remainder(m) == (if i == 0 then Remainder(before) else []) + input[i..] && |m| % 64 == index + |input| - i
  {
  }
}
