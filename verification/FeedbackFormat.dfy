/**
 The wire format of transport-wide congestion feedback, as a reader of the message sees it:
 draft-holmer-rmcat-transport-wide-cc-extensions-01, sections 3.1 to 3.1.5.  Nothing here knows how
 the encoder chooses its chunks.
 */
module FeedbackFormat {
  import opened Basics

  type Status = x: int | 0 <= x < 4

  const NOT_RECEIVED: Status := 0
  const SMALL_DELTA: Status := 1
  const LARGE_OR_NEGATIVE_DELTA: Status := 2
  const RESERVED: Status := 3

  /** What the message says about one packet; deltas count 250 microsecond ticks. */
  datatype Arrival = Missing | Arrived(delta: int)

  datatype Feedback = Feedback(
    ssrc: uint32,
    media: uint32,
    baseSeq: uint16,
    statusCount: uint16,
    reference: int,
    packetCount: byte,
    arrivals: seq<Arrival>)

  // ----- status chunks -----

  /** The last k digits of w in the given base, most significant first. */
  function Digits(w: nat, base: nat, k: nat): (s: seq<int>)
    requires base == 2 || base == 4
    ensures |s| == k && forall i :: 0 <= i < k ==> 0 <= s[i] < base
    decreases k
  {
    if k == 0 then [] else Digits(w / base, base, k - 1) + [w % base]
  }

  /** The statuses one 16-bit chunk stands for (sections 3.1.3 and 3.1.4). */
  function Symbols(w: uint16): (s: seq<Status>) {
    var v: int := w;
    var s: int := v / 0x2000;
    if s < 4 then Repeat(s, v % 0x2000)
    else if s < 6 then Digits(v, 2, 14)
    else Digits(v, 4, 7)
  }

  function AllSymbols(words: seq<uint16>): seq<Status> {
    if words == [] then [] else AllSymbols(words[..|words| - 1]) + Symbols(words[|words| - 1])
  }

  function WordBytes(words: seq<uint16>): (b: seq<byte>)
    ensures |b| == 2 * |words|
  {
    if words == [] then []
    else
      var w: nat := words[|words| - 1];
      WordBytes(words[..|words| - 1]) + [w / 0x100, w % 0x100]
  }

  /** Reads chunks until n statuses are known; surplus symbols of the last chunk are padding. */
  function ParseStatuses(b: seq<byte>, n: nat): Option<(seq<Status>, seq<byte>)>
    decreases |b|
  {
    if n == 0 then Some(([], b))
    else if |b| < 2 then None
    else
      var symbols := Symbols(Be16(b, 0));
      var used := Min(|symbols|, n);
      match ParseStatuses(b[2..], n - used)
      case None => None
      case Some((more, rest)) => Some((symbols[..used] + more, rest))
  }

  lemma {:induction false} AllSymbolsPrepend(w: uint16, words: seq<uint16>)
    ensures AllSymbols([w] + words) == Symbols(w) + AllSymbols(words)
  {
    hide Symbols;
    if words == [] {
      assert ([w] + words)[..0] == [];
      assert [w] + words == [w];
    } else {
      var n := |words| - 1;
      assert ([w] + words)[..n + 1] == [w] + words[..n];
      assert ([w] + words)[n + 1] == words[n];
      AllSymbolsPrepend(w, words[..n]);
    }
  }

  lemma {:induction false} WordBytesPrepend(w: uint16, words: seq<uint16>)
    ensures WordBytes([w] + words) == [w as int / 0x100, w as int % 0x100] + WordBytes(words)
  {
    if words == [] {
      assert ([w] + words)[..0] == [];
      assert [w] + words == [w];
    } else {
      var n := |words| - 1;
      assert ([w] + words)[..n + 1] == [w] + words[..n];
      assert ([w] + words)[n + 1] == words[n];
      WordBytesPrepend(w, words[..n]);
    }
  }

  /** Chunks that each carry a symbol, the last of which is needed to reach n, are read back whole. */
  lemma {:induction false} ParseStatusesReads(words: seq<uint16>, rest: seq<byte>, n: nat)
    requires words == [] ==> n == 0
    requires words != [] ==> |AllSymbols(words[..|words| - 1])| < n
    requires n <= |AllSymbols(words)|
    ensures ParseStatuses(WordBytes(words) + rest, n) == Some((AllSymbols(words)[..n], rest))
    decreases |words|
  {
    hide Symbols;
    if words == [] {
      assert WordBytes(words) + rest == rest;
    } else {
      var w, tail := words[0], words[1..];
      assert words == [w] + tail;
      WordBytesPrepend(w, tail);
      AllSymbolsPrepend(w, tail);
      var b := WordBytes(words) + rest;
      assert Be16(b, 0) == w;
      assert b[2..] == WordBytes(tail) + rest;
      var used := Min(|Symbols(w)|, n);
      if tail == [] {
        assert used == n;
        ParseStatusesReads(tail, rest, 0);
      } else {
        assert words[..|words| - 1] == [w] + tail[..|tail| - 1];
        AllSymbolsPrepend(w, tail[..|tail| - 1]);
        assert used == |Symbols(w)|;
        ParseStatusesReads(tail, rest, n - used);
      }
      assert AllSymbols(words)[..n] == Symbols(w)[..used] + AllSymbols(tail)[..n - used];
    }
  }

  // ----- receive deltas -----

  /** Statuses paired with their deltas: no byte, one unsigned byte or two signed bytes each. */
  function ParseDeltas(statuses: seq<Status>, b: seq<byte>): Option<(seq<Arrival>, seq<byte>)> {
    if statuses == [] then Some(([], b))
    else
      var size := if statuses[0] == NOT_RECEIVED then 0 else if statuses[0] == SMALL_DELTA then 1 else 2;
      if statuses[0] == RESERVED || |b| < size then None
      else
        var first :=
          if size == 0 then Missing
          else if size == 1 then Arrived(b[0])
          else Arrived(ToInt16(Be16(b, 0)));
        match ParseDeltas(statuses[1..], b[size..])
        case None => None
        case Some((more, rest)) => Some(([first] + more, rest))
  }

  /** The whole message: fixed part, chunks, deltas, and less than one word of zero padding. */
  function ParseFeedback(b: seq<byte>): Option<Feedback> {
    if |b| < 20 || b[0] != 0x8F || b[1] != 205 || |b| != 4 * (Be16(b, 2) as int + 1) then None
    else
      var count := Be16(b, 14);
      match ParseStatuses(b[20..], count)
      case None => None
      case Some((statuses, afterChunks)) =>
        match ParseDeltas(statuses, afterChunks)
        case None => None
        case Some((arrivals, padding)) =>
          if |padding| < 4 && forall i :: 0 <= i < |padding| ==> padding[i] == 0 then
            Some(Feedback(Be32(b, 4), Be32(b, 8), Be16(b, 12), count,
                          b[16] as int * 0x1_0000 + b[17] as int * 0x100 + b[18] as int, b[19], arrivals))
          else None
  }

  /** Time, in microseconds, that the reader assigns to the packets up to the end of the list. */
  function Clock(reference: int, arrivals: seq<Arrival>): int {
    if arrivals == [] then 64000 * reference
    else
      var last := arrivals[|arrivals| - 1];
      Clock(reference, arrivals[..|arrivals| - 1]) + if last.Arrived? then 250 * last.delta else 0
  }
}
