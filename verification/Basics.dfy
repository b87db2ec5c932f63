/** Types, number facts and sequence helpers that every component shares. */
module Basics {
  type byte = x: int | 0 <= x < 0x100
  type uint16 = x: int | 0 <= x < 0x1_0000
  type uint32 = x: int | 0 <= x < 0x1_0000_0000
  type uint64 = x: int | 0 <= x < 0x1_0000_0000_0000_0000
  type int32 = x: int | -0x8000_0000 <= x < 0x8000_0000

  const TWO32 := 0x1_0000_0000

  datatype Option<+T> = None | Some(value: T)

  function Min(a: int, b: int): int {
    if a < b then a else b
  }

  /** The value kept by a conversion to a signed 32-bit integer. */
  function ToInt32(x: int): int32 {
    var r := x % 0x1_0000_0000;
    if r < 0x8000_0000 then r else r - 0x1_0000_0000
  }

  /** The value kept by a conversion to a signed 16-bit integer. */
  function ToInt16(x: int): int {
    var r := x % 0x1_0000;
    if r < 0x8000 then r else r - 0x1_0000
  }

  function Pow2(n: nat): (r: int)
    ensures r >= 1
  {
    if n == 0 then 1 else 2 * Pow2(n - 1)
  }

  lemma {:induction false} Pow2Sum(a: nat, b: nat)
    ensures Pow2(a + b) == Pow2(a) * Pow2(b)
  {
    if b != 0 {
      Pow2Sum(a, b - 1);
    }
  }

  lemma {:induction false} Pow2Values()
    ensures Pow2(8) == 0x100 && Pow2(16) == 0x1_0000 && Pow2(32) == 0x1_0000_0000
  {
    assert Pow2(4) == 16;
    Pow2Sum(4, 4);
    Pow2Sum(8, 8);
    Pow2Sum(16, 16);
  }

  lemma {:induction false} Pow2Mono(a: nat, b: nat)
    requires a <= b
    ensures Pow2(a) <= Pow2(b)
    decreases b - a
  {
    if a < b {
      Pow2Mono(a, b - 1);
    }
  }

  lemma {:induction false} MulMono(a: int, b: int, p: nat)
    ensures a <= b ==> a * p <= b * p
  {
    if a <= b {
      assert (b - a) * p >= 0;
    }
  }

  /** A quotient and what it leaves. */
  lemma {:induction false} DivFacts(x: int, p: nat)
    requires p > 0
    ensures x / p * p <= x < x / p * p + p && x == x / p * p + x % p
    ensures x >= 0 ==> 0 <= x / p <= x
  {
    var q := x / p;
    if x >= 0 {
      MulMono(0, q + 1, p);
      MulMono(1, p, q);
      assert q * p == p * q;
    }
  }

  /** A quotient is determined by what it leaves. */
  lemma {:induction false} DivIs(x: int, p: nat, q: int)
    requires p > 0 && q * p <= x < q * p + p
    ensures x / p == q && x % p == x - q * p
  {
    DivFacts(x, p);
    MulMono(x / p + 1, q, p);
    MulMono(q + 1, x / p, p);
    assert (x / p + 1) * p == x / p * p + p && (q + 1) * p == q * p + p;
  }

  /** Dividing by 256 twice. */
  lemma {:induction false} NextByte(x: int, p: nat)
    requires p > 0
    ensures x / (p * 0x100) == x / p / 0x100
  {
    var q := x / p;
    DivFacts(x, p);
    DivFacts(q, 0x100);
    var r := q / 0x100;
    MulMono(r * 0x100, q, p);
    MulMono(q + 1, r * 0x100 + 0x100, p);
    assert r * 0x100 * p == r * (p * 0x100) && (r * 0x100 + 0x100) * p == r * (p * 0x100) + p * 0x100;
    assert (q + 1) * p == q * p + p;
    DivIs(x, p * 0x100, r);
  }

  /** A 32-bit number is the sum of its bytes. */
  lemma {:induction false} FourBytes(x: uint32)
    ensures x / 0x100_0000 < 0x100
    ensures x as int == x as int / 0x100_0000 * 0x100_0000 + x as int / 0x1_0000 % 0x100 * 0x1_0000
                        + x as int / 0x100 % 0x100 * 0x100 + x as int % 0x100
  {
    NextByte(x, 0x100);
    NextByte(x, 0x1_0000);
    var a, b, c := x as int / 0x100, x as int / 0x1_0000, x as int / 0x100_0000;
    assert b == a / 0x100 && c == b / 0x100;
    DivFacts(x, 0x100);
    DivFacts(a, 0x100);
    DivFacts(b, 0x100);
  }

  function Repeat<T>(x: T, n: nat): (r: seq<T>)
    ensures |r| == n && forall i :: 0 <= i < n ==> r[i] == x
  {
    seq(n, _ => x)
  }

  /** Big-endian words, as ntohs and ntohl read them. */
  function Be16(b: seq<byte>, i: nat): uint16
    requires i + 2 <= |b|
  {
    b[i] as int * 0x100 + b[i + 1] as int
  }

  function Be32(b: seq<byte>, i: nat): uint32
    requires i + 4 <= |b|
  {
    b[i] as int * 0x100_0000 + b[i + 1] as int * 0x1_0000 + b[i + 2] as int * 0x100 + b[i + 3] as int
  }

  lemma {:induction false} SliceOfSlice<T>(s: seq<T>, start: nat, end: nat, i: nat, j: nat)
    requires start <= end <= |s| && i <= j <= end - start
    ensures s[start..end][i..j] == s[start + i..start + j]
  {
    var a, b := s[start..end][i..j], s[start + i..start + j];
    assert forall k :: 0 <= k < j - i ==> a[k] == s[start..end][i + k] == s[start + i + k] == b[k];
  }

  /** The bytes of a word, high byte first, as htons and htonl lay it out. */
  function Bytes16(x: uint16): (b: seq<byte>)
    ensures |b| == 2
  {
    [x / 0x100, x % 0x100]
  }

  function Bytes32(x: uint32): (b: seq<byte>)
    ensures |b| == 4
  {
    [x / 0x100_0000, x / 0x1_0000 % 0x100, x / 0x100 % 0x100, x % 0x100]
  }

  /** The bytes of a word, low byte first. */
  function LowFirst(x: uint32): (b: seq<byte>)
    ensures |b| == 4
  {
    [x % 0x100, x / 0x100 % 0x100, x / 0x1_0000 % 0x100, x / 0x100_0000]
  }

  lemma {:induction false} Be16Inverts(x: uint16, b: seq<byte>, i: nat)
    requires i + 2 <= |b| && b[i..i + 2] == Bytes16(x)
    ensures Be16(b, i) == x
  {
    assert b[i] == b[i..i + 2][0] && b[i + 1] == b[i..i + 2][1];
  }

  lemma {:induction false} Be32Inverts(x: uint32, b: seq<byte>, i: nat)
    requires i + 4 <= |b| && b[i..i + 4] == Bytes32(x)
    ensures Be32(b, i) == x
  {
    var w := b[i..i + 4];
    assert b[i] == w[0] && b[i + 1] == w[1] && b[i + 2] == w[2] && b[i + 3] == w[3];
    FourBytes(x);
  }

  lemma {:induction false} SplitSlice<T>(s: seq<T>, a: nat, b: nat, c: nat)
    requires a <= b <= c <= |s|
    ensures s[a..c] == s[a..b] + s[b..c]
  {
  }

  /** Where the parts of a concatenation are. */
  lemma {:induction false} Parts<T>(a: seq<T>, b: seq<T>, c: seq<T>)
    ensures var w := a + b + c;
            w[..|a|] == a && w[|a|..|a| + |b|] == b && w[|a| + |b|..] == c
  {
  }

  function Flatten<T>(parts: seq<seq<T>>): seq<T> {
    if parts == [] then [] else parts[0] + Flatten(parts[1..])
  }

  lemma {:induction false} FlattenSnoc<T>(parts: seq<seq<T>>, last: seq<T>)
    ensures Flatten(parts + [last]) == Flatten(parts) + last
  {
    if parts == [] {
      assert parts + [last] == [last];
      assert [last][1..] == [];
    } else {
      assert (parts + [last])[1..] == parts[1..] + [last];
      FlattenSnoc(parts[1..], last);
      assert (parts + [last])[0] == parts[0];
    }
  }
}
