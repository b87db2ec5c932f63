/**
 Status chunks of the feedback message: how one 16-bit chunk is assembled, and the writer that picks
 between run length, 1-bit and 2-bit chunks while it keeps a queue of undecided statuses.
 */
module FeedbackChunks {
  import opened Basics
  import opened FeedbackFormat

  /** Appends num bits to a 32-bit word. */
  function PushBits(word: uint32, num: nat, val: uint32): uint32 {
    (word * Pow2(num) + val % Pow2(num)) % 0x1_0000_0000
  }

  lemma {:induction false} Pow2Constants()
    ensures Pow2(1) == 2 && Pow2(2) == 4 && Pow2(13) == 0x2000 && Pow2(14) == 0x4000
  {
    assert Pow2(4) == 16 && Pow2(5) == 32;
    assert Pow2(7) == 128;
    assert Pow2(9) == 512;
    assert Pow2(11) == 2048;
  }

  lemma {:induction false} Push1(word: uint32, val: uint32)
    requires word < 0x8000_0000 && val < 2
    ensures PushBits(word, 1, val) == 2 * word as int + val as int
  {
    Pow2Constants();
  }

  lemma {:induction false} Push2(word: uint32, val: uint32)
    requires word < 0x4000_0000 && val < 4
    ensures PushBits(word, 2, val) == 4 * word as int + val as int
  {
    Pow2Constants();
  }

  lemma {:induction false} Push13(word: uint32, val: uint32)
    requires word < 8
    ensures PushBits(word, 13, val) == 0x2000 * word as int + val as int % 0x2000
  {
    Pow2Constants();
    assert word * 0x2000 + val % 0x2000 < 0x1_0000_0000;
  }

  lemma {:induction false} PushZeros(word: uint32, num: nat)
    requires word as int * Pow2(num) < 0x1_0000_0000
    ensures PushBits(word, num, 0) == word as int * Pow2(num)
  {
  }

  /** A run chunk holds one bit 0, two bits of status and thirteen bits of length. */
  lemma {:induction false} RunWord(s: Status, n: uint32)
    ensures PushBits(PushBits(PushBits(0, 1, 0), 2, s), 13, n) == s as int * 0x2000 + n as int % 0x2000
  {
    hide PushBits;
    Push1(0, 0);
    Push2(0, s);
    Push13(s, n);
  }

  /** A run is read back exactly when its length fits 13 bits. */
  lemma {:induction false} RunFits(s: Status, n: uint32, w: uint16)
    requires n > 0
    requires w == s as int * 0x2000 + n as int % 0x2000
    ensures Symbols(w) == Repeat(s, n) <==> n <= 0x1FFF
  {
    var v: int := w;
    assert v / 0x2000 == s && v % 0x2000 == n as int % 0x2000;
    assert |Symbols(w)| == n as int % 0x2000;
    assert |Repeat(s, n)| == n;
  }

  // A symbol is one bit wide in the shorter vectors (header 10) and two bits in the others (header 11).

  function Base(width: nat): nat {
    if width == 1 then 2 else 4
  }

  /** Number of different values of n symbols. */
  function Span(width: nat, n: nat): nat {
    if n == 0 then 1 else if width == 1 then 2 * Span(width, n - 1) else 4 * Span(width, n - 1)
  }

  /** The word holding the header of a vector followed by the statuses. */
  function Packed(width: nat, s: seq<Status>): nat {
    if s == [] then (if width == 1 then 2 else 3)
    else if width == 1 then 2 * Packed(width, s[..|s| - 1]) + s[|s| - 1]
    else 4 * Packed(width, s[..|s| - 1]) + s[|s| - 1]
  }

  predicate Fits(width: nat, s: seq<Status>) {
    forall i :: 0 <= i < |s| ==> s[i] < Base(width)
  }

  lemma {:induction false} PackedBounds(width: nat, s: seq<Status>)
    requires Fits(width, s)
    ensures width == 1 ==> 2 * Span(width, |s|) <= Packed(width, s) < 3 * Span(width, |s|)
    ensures width != 1 ==> 3 * Span(width, |s|) <= Packed(width, s) < 4 * Span(width, |s|)
  {
    if s != [] {
      var t := s[..|s| - 1];
      PackedBounds(width, t);
      assert s[|s| - 1] < Base(width);
    }
  }

  lemma {:induction false} PackedDigits(width: nat, s: seq<Status>)
    requires Fits(width, s)
    ensures Digits(Packed(width, s), Base(width), |s|) == s
  {
    if s != [] {
      var t, last := s[..|s| - 1], s[|s| - 1] as int;
      PackedDigits(width, t);
      assert last < Base(width);
      if width == 1 {
        assert (2 * Packed(width, t) + last) / 2 == Packed(width, t);
      } else {
        assert (4 * Packed(width, t) + last) / 4 == Packed(width, t);
      }
      assert s == t + [s[|s| - 1]];
    }
  }

  lemma {:induction false} Scale(x: int, y: int)
    ensures 2 * (x * y) == x * (2 * y) && 4 * (x * y) == x * (4 * y)
  {
  }

  /** Shifting in zero bits is the same as packing zero statuses. */
  lemma {:induction false} PackedPadding(width: nat, s: seq<Status>, k: nat)
    ensures Packed(width, s + Repeat(0, k)) == Packed(width, s) * Span(width, k)
  {
    if k == 0 {
      assert s + Repeat(0, 0) == s;
    } else {
      var t := s + Repeat(0, k);
      assert t[..|t| - 1] == s + Repeat(0, k - 1);
      PackedPadding(width, s, k - 1);
      Scale(Packed(width, s), Span(width, k - 1));
    }
  }

  lemma {:induction false} SpanIsPow2(width: nat, n: nat)
    requires width == 1 || width == 2
    ensures Span(width, n) == Pow2(width * n)
  {
    if n != 0 {
      SpanIsPow2(width, n - 1);
      if width == 2 {
        assert Pow2(2 * n) == 2 * Pow2(2 * n - 1) == 4 * Pow2(2 * n - 2);
      }
    }
  }

  /** A vector, padded with zero bits to sixteen, is read back as its statuses and zero statuses. */
  lemma {:induction false} VectorSymbols(width: nat, s: seq<Status>, w: int)
    requires width == 1 || width == 2
    requires Fits(width, s) && width * |s| <= 14
    requires w == Packed(width, s) * Pow2(14 - width * |s|)
    ensures 0 <= w < 0x1_0000
    ensures Symbols(w) == s + Repeat(0, 14 / width - |s|)
  {
    hide Packed, Span, Pow2, Digits;
    var n := if width == 1 then 14 else 7;
    assert width * (n - |s|) == 14 - width * |s|;
    var t := s + Repeat(0, n - |s|);
    PackedPadding(width, s, n - |s|);
    SpanIsPow2(width, n - |s|);
    assert w == Packed(width, t);
    assert Span(width, n) == 0x4000 by {
      SpanIsPow2(width, n);
      Pow2Constants();
    }
    assert Fits(width, t);
    PackedBounds(width, t);
    PackedDigits(width, t);
  }

  lemma {:induction false} PushPacked(width: nat, s: seq<Status>, n: nat)
    requires width == 1 || width == 2
    requires n < |s| && Fits(width, s) && width * |s| <= 14
    ensures Packed(width, s[..n]) < 0x1_0000
    ensures PushBits(Packed(width, s[..n]), width, s[n]) == Packed(width, s[..n + 1])
  {
    hide PushBits, Pow2, Span;
    var t := s[..n];
    assert s[..n + 1][..n] == t;
    PackedBounds(width, t);
    SpanIsPow2(width, n);
    SpanIsPow2(width, 14 / width);
    SpanMonotonic(width, n, 14 / width);
    Pow2Constants();
    assert s[n] < Base(width);
    if width == 1 {
      Push1(Packed(width, t), s[n]);
    } else {
      Push2(Packed(width, t), s[n]);
    }
  }

  lemma {:induction false} SpanMonotonic(width: nat, m: nat, n: nat)
    requires m <= n
    ensures Span(width, m) <= Span(width, n)
    decreases n
  {
    if m < n {
      SpanMonotonic(width, m, n - 1);
    }
  }

  // ----- choosing chunks -----

  function MaxStatus(q: seq<Status>): Status {
    if q == [] then NOT_RECEIVED
    else
      var m, last := MaxStatus(q[..|q| - 1]), q[|q| - 1];
      if last > m then last else m
  }

  predicate Uniform(q: seq<Status>) {
    forall i :: 0 <= i < |q| ==> q[i] == q[0]
  }

  lemma {:induction false} MaxStatusBounds(q: seq<Status>)
    ensures forall i :: 0 <= i < |q| ==> q[i] <= MaxStatus(q)
    ensures MaxStatus(q) == NOT_RECEIVED || exists i :: 0 <= i < |q| && q[i] == MaxStatus(q)
  {
    if q != [] {
      var l := |q| - 1;
      var init, m := q[..l], MaxStatus(q);
      MaxStatusBounds(init);
      forall i | 0 <= i < |q| ensures q[i] <= m {
        if i < l {
          assert q[i] == init[i];
        }
      }
      if m == q[l] {
        assert q[l] == m;
      } else if m != NOT_RECEIVED {
        var i :| 0 <= i < |init| && init[i] == MaxStatus(init);
        assert q[i] == m;
      }
    }
  }

  predicate SummaryOk(q: seq<Status>, last: Status, max: Status) {
    && (forall i :: 0 <= i < |q| ==> q[i] <= LARGE_OR_NEGATIVE_DELTA)
    && last == (if q == [] then RESERVED else q[|q| - 1])
    && max == MaxStatus(q)
  }

  /** The summary of the queue, and how long a queue that is not one run may get between packets. */
  predicate QueueOk(q: seq<Status>, last: Status, max: Status, allSame: bool) {
    && SummaryOk(q, last, max)
    && (allSame <==> Uniform(q))
    && (!allSame ==> |q| <= if max == LARGE_OR_NEGATIVE_DELTA then 7 else 13)
  }

  method Set1(data: array<byte>, i: nat, val: int)
    requires i < data.Length
    modifies data
    ensures data[..] == old(data[..])[i := val % 0x100]
  {
    data[i] := val % 0x100;
  }

  method Set2(data: array<byte>, i: nat, val: int)
    requires i + 1 < data.Length
    modifies data
    ensures data[..] == old(data[..])[i + 1 := val % 0x100][i := val / 0x100 % 0x100]
  {
    data[i + 1] := val % 0x100;
    data[i] := val / 0x100 % 0x100;
  }

  method Set3(data: array<byte>, i: nat, val: int)
    requires i + 2 < data.Length
    modifies data
    ensures data[..] ==
            old(data[..])[i + 2 := val % 0x100][i + 1 := val / 0x100 % 0x100][i := val / 0x1_0000 % 0x100]
  {
    data[i + 2] := val % 0x100;
    data[i + 1] := val / 0x100 % 0x100;
    data[i] := val / 0x1_0000 % 0x100;
  }

  // ----- the queue, as a function of the statuses -----

  /** What is left of the queue when the next status ends a run that is long enough. */
  function Ended(q: seq<Status>, s: Status): seq<Status> {
    if q != [] && Uniform(q) && q[|q| - 1] != s && |q| > 7 then [] else q
  }

  /** What is left when a mixed queue fills a vector. */
  function Filled(q: seq<Status>): seq<Status> {
    if Uniform(q) then q
    else if MaxStatus(q) == LARGE_OR_NEGATIVE_DELTA && |q| > 6 then q[7..]
    else if |q| > 13 then q[14..]
    else q
  }

  function QueueAfter(ss: seq<Status>): seq<Status> {
    if ss == [] then []
    else
      var init, s := ss[..|ss| - 1], ss[|ss| - 1];
      Filled(Ended(QueueAfter(init), s) + [s])
  }

  /** No run in the queue ever outgrows the 13 bits of a run chunk. */
  predicate QueuesFit(ss: seq<Status>) {
    forall n :: 0 <= n <= |ss| ==> |QueueAfter(ss[..n])| <= 0x1FFF
  }

  /** All of a stretch of statuses alike. */
  predicate Alike(ss: seq<Status>, i: nat, j: nat)
    requires i <= j <= |ss|
  {
    Uniform(ss[i..j])
  }

  lemma {:induction false} QueueSnoc(ss: seq<Status>, s: Status)
    ensures QueueAfter(ss + [s]) == Filled(Ended(QueueAfter(ss), s) + [s])
  {
    assert (ss + [s])[..|ss|] == ss;
  }

  lemma {:induction false} NextEnd(q: seq<Status>, s: Status)
    requires Uniform(q) || |q| <= 13
    ensures var r := Filled(Ended(q, s) + [s]);
            |r| <= |q| + 1 && r == (q + [s])[|q| + 1 - |r|..] && (Uniform(r) || |r| <= 13)
  {
    hide MaxStatus, Filled, Uniform;
    var e := Ended(q, s);
    UniformSnoc(e, s);
    FilledEnd(e + [s]);
    assert e + [s] == (q + [s])[|q| - |e|..];
  }

  lemma {:induction false} EndOfEnd(ss: seq<Status>, s: Status, q: seq<Status>, r: seq<Status>)
    requires |q| <= |ss| && q == ss[|ss| - |q|..] && |r| <= |q| + 1 && r == (q + [s])[|q| + 1 - |r|..]
    ensures r == (ss + [s])[|ss| + 1 - |r|..]
  {
    assert q + [s] == (ss + [s])[|ss| - |q|..];
  }

  /** The queue is the end of the statuses, and is one run when it is long. */
  lemma {:induction false} QueueIsEnd(ss: seq<Status>)
    ensures var q := QueueAfter(ss);
            |q| <= |ss| && q == ss[|ss| - |q|..] && (Uniform(q) || |q| <= 13)
    decreases |ss|
  {
    hide Filled, Ended, Uniform;
    if ss != [] {
      var init, s := ss[..|ss| - 1], ss[|ss| - 1];
      assert ss == init + [s];
      QueueIsEnd(init);
      QueueSnoc(init, s);
      NextEnd(QueueAfter(init), s);
      EndOfEnd(init, s, QueueAfter(init), QueueAfter(ss));
    }
  }

  lemma {:induction false} FilledEnd(q: seq<Status>)
    ensures |Filled(q)| <= |q| && Filled(q) == q[|q| - |Filled(q)|..]
    ensures Uniform(q) ==> Filled(q) == q
    ensures !Uniform(q) ==> |Filled(q)| <= if |q| > 13 then |q| - 7 else 13
  {
    hide MaxStatus, Uniform;
  }

  /** It is enough that no run of statuses is longer than 8191. */
  lemma {:induction false} ShortRunsFit(ss: seq<Status>)
    requires forall i, j :: 0 <= i <= j <= |ss| && Alike(ss, i, j) ==> j - i <= 0x1FFF
    ensures QueuesFit(ss)
  {
    hide Uniform, QueueAfter;
    forall n | 0 <= n <= |ss| ensures |QueueAfter(ss[..n])| <= 0x1FFF {
      var part := ss[..n];
      QueueIsEnd(part);
      var q := QueueAfter(part);
      assert q == part[n - |q|..] == ss[n - |q|..n];
      if Uniform(q) {
        assert Alike(ss, n - |q|, n);
      }
    }
  }

  /** The part of the encoder that turns statuses into chunks, with the variables it keeps. */
  class ChunkWriter {
    const data: array<byte>
    const start: nat
    var len: nat
    var statuses: seq<Status>
    var lastStatus: Status
    var maxStatus: Status
    var allSame: bool
    ghost var words: seq<uint16>  // the chunks written so far

    ghost predicate Written()
      reads this, data
    {
      && start <= len == start + 2 * |words| <= data.Length
      && data[start..len] == WordBytes(words)
      && |words| <= |AllSymbols(words)|
      && (words != [] ==> |AllSymbols(words[..|words| - 1])| < |AllSymbols(words)|)
    }

    ghost predicate Valid()
      reads this, data
    {
      Written() && Dense() && QueueOk(statuses, lastStatus, maxStatus, allSame)
    }

    /** Each chunk but the last of a message stands for seven statuses or more. */
    ghost predicate Dense()
      reads this
    {
      7 * |words| <= |AllSymbols(words)|
    }

    /** Everything appended so far: what the chunks say, then what is still queued. */
    ghost function Seen(): seq<Status>
      reads this
    {
      AllSymbols(words) + statuses
    }

    constructor (data: array<byte>, start: nat)
      requires start <= data.Length
      ensures Valid() && Seen() == [] && statuses == [] && this.data == data && this.start == start
    {
      this.data, this.start, len := data, start, start;
      statuses, lastStatus, maxStatus, allSame := [], RESERVED, NOT_RECEIVED, true;
      words := [];
    }

    method WriteWord(word: uint16)
      requires Written() && len + 2 <= data.Length
      requires Symbols(word) != []
      modifies this`len, this`words, data
      ensures Written()
      ensures words == old(words) + [word]
      ensures data[..start] == old(data[..start])
    {
      hide Symbols, AllSymbols;
      var w: int := word;
      Set2(data, len, w);
      assert data[start..len + 2] == old(data[start..len]) + [w / 0x100, w % 0x100];
      assert (words + [word])[..|words|] == words;
      AllSymbolsSnoc(words, word);
      len := len + 2;
      words := words + [word];
    }

    /** Writes the queued statuses, all alike, as one run. */
    method WriteRun()
      requires Written() && len + 2 <= data.Length
      requires 0 < |statuses| <= 0x1FFF && statuses == Repeat(lastStatus, |statuses|)
      modifies this`len, this`words, data
      ensures Written()
      ensures |words| == old(|words|) + 1 && words[..old(|words|)] == old(words)
      ensures AllSymbols(words) == old(AllSymbols(words)) + statuses
      ensures data[..start] == old(data[..start])
    {
      hide PushBits, Symbols, AllSymbols;
      RunWord(lastStatus, |statuses|);
      var word := PushBits(0, 1, 0);
      word := PushBits(word, 2, lastStatus);
      word := PushBits(word, 13, |statuses|);
      RunFits(lastStatus, |statuses|, word);
      AllSymbolsSnoc(words, word);
      WriteWord(word);
    }

    /** Moves n statuses from the queue into a vector chunk, zero padded if there are too few. */
    method WriteVector(width: nat, n: nat)
      requires width == 1 || width == 2
      requires Written() && len + 2 <= data.Length
      requires 0 < n <= |statuses| && width * n <= 14 && Fits(width, statuses[..n])
      modifies this`len, this`words, this`statuses, data
      ensures Written()
      ensures |words| == old(|words|) + 1 && words[..old(|words|)] == old(words)
      ensures statuses == old(statuses)[n..]
      ensures AllSymbols(words) == old(AllSymbols(words)) + old(statuses)[..n] + Repeat(0, 14 / width - n)
      ensures data[..start] == old(data[..start])
    {
      hide PushBits, Symbols, Packed, AllSymbols;
      ghost var chunk := statuses[..n];
      PackedHeader(width);
      var word := PushBits(0, 1, 1);
      word := PushBits(word, 1, width - 1);
      var i := 0;
      while i < n
        invariant 0 <= i <= n
        invariant statuses == old(statuses)[i..]
        invariant word == Packed(width, chunk[..i])
        modifies this`statuses
      {
        PushPacked(width, chunk, i);
        assert statuses[0] == chunk[i];
        word := PushBits(word, width, statuses[0]);
        statuses := statuses[1..];
        i := i + 1;
      }
      assert chunk[..n] == chunk;
      VectorSymbols(width, chunk, word as int * Pow2(14 - width * n));
      PushZeros(word, 14 - width * n);
      word := PushBits(word, 14 - width * n, 0);
      AllSymbolsSnoc(words, word);
      WriteWord(word);
    }

    /** Recomputes the summary of what is left in the queue. */
    method Restore()
      requires forall i :: 0 <= i < |statuses| ==> statuses[i] <= LARGE_OR_NEGATIVE_DELTA
      requires |statuses| <= 7
      modifies this`lastStatus, this`maxStatus, this`allSame
      ensures QueueOk(statuses, lastStatus, maxStatus, allSame)
    {
      lastStatus, maxStatus, allSame := RESERVED, NOT_RECEIVED, true;
      var i := 0;
      while i < |statuses|
        invariant 0 <= i <= |statuses|
        invariant QueueOk(statuses[..i], lastStatus, maxStatus, allSame)
      {
        var status := statuses[i];
        assert statuses[..i + 1][..i] == statuses[..i];
        if status > maxStatus {
          maxStatus := status;
        }
        if allSame && lastStatus != RESERVED && status != lastStatus {
          allSame := false;
        }
        lastStatus := status;
        i := i + 1;
      }
      assert statuses[..i] == statuses;
    }

    /** Writes the run held in the queue if the next status ends it and it is long enough. */
    method EndRun(status: Status)
      requires Valid() && len + 2 <= data.Length
      requires status <= LARGE_OR_NEGATIVE_DELTA && |statuses| <= 0x1FFF
      modifies this`len, this`words, this`statuses, this`lastStatus, this`maxStatus, this`allSame, data
      ensures Written() && Dense() && SummaryOk(statuses, lastStatus, maxStatus)
      ensures statuses == Ended(old(statuses), status)
      ensures allSame <==> Uniform(statuses + [status])
      ensures !allSame ==> |statuses| <= if maxStatus == LARGE_OR_NEGATIVE_DELTA then 7 else 13
      ensures Seen() == old(Seen())
      ensures len == old(len) || (len == old(len) + 2 && allSame)
      ensures data[..start] == old(data[..start])
    {
      hide AllSymbols, Symbols, WordBytes, MaxStatus;
      UniformSnoc(statuses, status);
      if allSame && lastStatus != RESERVED && status != lastStatus {
        if |statuses| > 7 {
          UniformRun(statuses);
          WriteRun();
          statuses := [];
          lastStatus, maxStatus, allSame := RESERVED, NOT_RECEIVED, true;
          MaxStatusEmpty();
        } else {
          allSame := false;
        }
      }
    }

    /** Writes a vector when a mixed queue can fill one. */
    method FillVector()
      requires Written() && Dense() && SummaryOk(statuses, lastStatus, maxStatus)
      requires allSame <==> Uniform(statuses)
      requires !allSame ==> |statuses| <= 14 && len + 2 <= data.Length
      modifies this`len, this`words, this`statuses, this`lastStatus, this`maxStatus, this`allSame, data
      ensures Valid()
      ensures Seen() == old(Seen())
      ensures statuses == Filled(old(statuses))
      ensures len == old(len) || (len == old(len) + 2 && !old(allSame))
      ensures data[..start] == old(data[..start])
    {
      hide AllSymbols, Symbols, WordBytes, MaxStatus;
      if !allSame {
        MaxStatusBounds(statuses);
        if maxStatus == LARGE_OR_NEGATIVE_DELTA && |statuses| > 6 {
          WriteVector(2, 7);
          Restore();
        } else if |statuses| > 13 {
          WriteVector(1, 14);
          lastStatus, maxStatus, allSame := RESERVED, NOT_RECEIVED, true;
          MaxStatusEmpty();
        }
      }
    }

    /** Takes the status of the next packet. */
    method Append(status: Status)
      requires Valid() && len + 2 <= data.Length
      requires status <= LARGE_OR_NEGATIVE_DELTA && |statuses| <= 0x1FFF
      modifies this`len, this`words, this`statuses, this`lastStatus, this`maxStatus, this`allSame, data
      ensures Valid()
      ensures Seen() == old(Seen()) + [status]
      ensures statuses == Filled(Ended(old(statuses), status) + [status])
      ensures len <= old(len) + 2
      ensures data[..start] == old(data[..start])
    {
      hide AllSymbols, Symbols, WordBytes, MaxStatus, Ended, Filled;
      EndRun(status);
      MaxStatusSnoc(statuses, status);
      statuses := statuses + [status];
      if status > maxStatus {
        maxStatus := status;
      }
      lastStatus := status;
      FillVector();
    }

    /** Writes what is left in the queue, the last vector padded with zero statuses. */
    method Finish()
      requires Valid() && (statuses != [] ==> len + 2 <= data.Length)
      requires |statuses| <= 0x1FFF
      modifies this`len, this`words, this`statuses, data
      ensures Written()
      ensures old(Seen()) <= AllSymbols(words)
      ensures |AllSymbols(words)| < |old(Seen())| + 14
      ensures forall i :: |old(Seen())| <= i < |AllSymbols(words)| ==> AllSymbols(words)[i] == NOT_RECEIVED
      ensures words != [] ==> |AllSymbols(words[..|words| - 1])| < |old(Seen())|
      ensures |words| <= |old(Seen())| && 7 * |words| <= |old(Seen())| + 7
      ensures data[..start] == old(data[..start])
    {
      hide AllSymbols, Symbols, WordBytes, MaxStatus;
      if |statuses| > 0 {
        MaxStatusBounds(statuses);
        if allSame {
          UniformRun(statuses);
          WriteRun();
        } else if maxStatus == LARGE_OR_NEGATIVE_DELTA {
          WriteVector(2, |statuses|);
        } else {
          WriteVector(1, |statuses|);
        }
      }
    }
  }

  lemma {:induction false} UniformRun(q: seq<Status>)
    requires q != [] && Uniform(q)
    ensures q == Repeat(q[|q| - 1], |q|)
  {
  }

  lemma {:induction false} UniformSnoc(q: seq<Status>, s: Status)
    ensures Uniform(q + [s]) <==> Uniform(q) && (q == [] || q[|q| - 1] == s)
  {
    if Uniform(q + [s]) {
      assert forall i :: 0 <= i < |q| ==> q[i] == (q + [s])[i];
      assert (q + [s])[|q|] == s;
    }
  }

  lemma {:induction false} MaxStatusEmpty()
    ensures MaxStatus([]) == NOT_RECEIVED
  {
  }

  lemma {:induction false} MaxStatusSnoc(q: seq<Status>, s: Status)
    ensures MaxStatus(q + [s]) == if s > MaxStatus(q) then s else MaxStatus(q)
  {
    assert (q + [s])[..|q|] == q;
  }

  lemma {:induction false} AllSymbolsSnoc(words: seq<uint16>, word: uint16)
    ensures AllSymbols(words + [word]) == AllSymbols(words) + Symbols(word)
  {
    hide Symbols;
    assert (words + [word])[..|words|] == words;
  }

  lemma {:induction false} PackedHeader(width: nat)
    requires width == 1 || width == 2
    ensures PushBits(0, 1, 1) == 1
    ensures PushBits(1, 1, width - 1) == Packed(width, [])
  {
    hide PushBits;
    Push1(0, 1);
    Push1(1, width - 1);
  }
}
