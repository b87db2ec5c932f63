/** The AMF0 writers: a value is written exactly when the buffer has room for all of it. */
module Amf0Writer {
  import opened Basics
  import opened Amf0
  import opened Amf0Laws

  // ----- what one write does to a buffer -----

  /**
   The bytes went to start.., or did not fit before end and r is negative.  Nothing outside is touched,
   and nothing beyond the bytes when they fit.
   */
  predicate Wrote(bytes: seq<byte>, before: seq<byte>, after: seq<byte>, start: nat, end: nat, r: int) {
    && |after| == |before| && start <= end <= |before|
    && r == (if |bytes| <= end - start then |bytes| else -1)
    && (forall k :: 0 <= k < start ==> after[k] == before[k])
    && (forall k :: (if r >= 0 then start + r else end) <= k < |before| ==> after[k] == before[k])
    && (r >= 0 ==> after[start..start + r] == bytes)
  }

  /** Two writes in a row, the second one where the first one ended. */
  lemma {:induction false} WroteBoth(a: seq<byte>, b: seq<byte>, s0: seq<byte>, s1: seq<byte>, s2: seq<byte>,
                                     start: nat, end: nat, m: nat, n: int)
    requires Wrote(a, s0, s1, start, end, m) && Wrote(b, s1, s2, start + m, end, n)
    ensures Wrote(a + b, s0, s2, start, end, if n < 0 then -1 else m + n)
  {
    if n >= 0 {
      var r := s2[start..start + m + n];
      assert r == s2[start..start + m] + s2[start + m..start + m + n];
      assert s2[start..start + m] == s1[start..start + m];
    }
  }

  /** What does not fit does not fit when it is longer. */
  lemma {:induction false} StillFails(a: seq<byte>, b: seq<byte>, s0: seq<byte>, s1: seq<byte>, start: nat, end: nat)
    requires Wrote(a, s0, s1, start, end, -1) && |a| <= |b|
    ensures Wrote(b, s0, s1, start, end, -1)
  {
  }

  // ----- pieces of an encoding -----

  lemma {:induction false} EncodeAllSplit(ps: seq<Property>, i: nat)
    requires i <= |ps|
    ensures EncodeAll(ps) == EncodeAll(ps[..i]) + EncodeAll(ps[i..])
    decreases i
  {
    hide Encode, EncodeText;
    if i == 0 {
      assert ps[..0] == [] && ps[0..] == ps;
    } else {
      assert ps[..i][1..] == ps[1..][..i - 1] && ps[1..][i - 1..] == ps[i..];
      EncodeAllSplit(ps[1..], i - 1);
      var e := EncodeText(ps[0].key) + Encode(ps[0].value);
      assert e + (EncodeAll(ps[1..][..i - 1]) + EncodeAll(ps[i..])) == e + EncodeAll(ps[1..][..i - 1]) + EncodeAll(ps[i..]);
    }
  }

  lemma {:induction false} EncodeAllStep(ps: seq<Property>, i: nat)
    requires i < |ps|
    ensures EncodeAll(ps[..i + 1]) == EncodeAll(ps[..i]) + EncodeText(ps[i].key) + Encode(ps[i].value)
    ensures |EncodeAll(ps[..i + 1])| <= |EncodeAll(ps)|
    ensures Short(ps[i].value) && |ps[i].key| <= MAX_STRING <== AllShort(ps)
  {
    hide Encode, EncodeText, Short;
    EncodeAllSplit(ps[..i + 1], i);
    EncodeAllSplit(ps, i + 1);
    ShortAt(ps, i);
    assert ps[..i + 1][..i] == ps[..i];
    assert ps[..i + 1][i..] == [ps[i]] && [ps[i]][1..] == [];
    assert EncodeAll([ps[i]]) == EncodeText(ps[i].key) + Encode(ps[i].value) + EncodeAll([]);
    assert EncodeAll(ps[..i + 1]) == EncodeAll(ps[..i]) + (EncodeText(ps[i].key) + Encode(ps[i].value));
  }

  lemma {:induction false} ShortAt(ps: seq<Property>, i: nat)
    requires i < |ps|
    ensures AllShort(ps) ==> Short(ps[i].value) && |ps[i].key| <= MAX_STRING
    decreases i
  {
    if i > 0 {
      ShortAt(ps[1..], i - 1);
    }
  }

  lemma {:induction false} EncodeElementsSplit(es: seq<Value>, i: nat)
    requires i <= |es|
    ensures EncodeElements(es) == EncodeElements(es[..i]) + EncodeElements(es[i..])
    decreases i
  {
    hide Encode;
    if i == 0 {
      assert es[..0] == [] && es[0..] == es;
    } else {
      assert es[..i][1..] == es[1..][..i - 1] && es[1..][i - 1..] == es[i..];
      EncodeElementsSplit(es[1..], i - 1);
      var e := Encode(es[0]);
      assert e + (EncodeElements(es[1..][..i - 1]) + EncodeElements(es[i..])) == e + EncodeElements(es[1..][..i - 1]) + EncodeElements(es[i..]);
    }
  }

  lemma {:induction false} EncodeElementsStep(es: seq<Value>, i: nat)
    requires i < |es|
    ensures EncodeElements(es[..i + 1]) == EncodeElements(es[..i]) + Encode(es[i])
    ensures |EncodeElements(es[..i + 1])| <= |EncodeElements(es)|
    ensures Short(es[i]) <== ElementsShort(es)
  {
    hide Encode, Short;
    EncodeElementsSplit(es[..i + 1], i);
    EncodeElementsSplit(es, i + 1);
    ElementShortAt(es, i);
    assert es[..i + 1][..i] == es[..i];
    assert es[..i + 1][i..] == [es[i]] && [es[i]][1..] == [];
    assert EncodeElements([es[i]]) == Encode(es[i]) + EncodeElements([]);
    assert EncodeElements(es[..i + 1]) == EncodeElements(es[..i]) + Encode(es[i]);
  }

  lemma {:induction false} ElementShortAt(es: seq<Value>, i: nat)
    requires i < |es|
    ensures ElementsShort(es) ==> Short(es[i])
    decreases i
  {
    if i > 0 {
      ElementShortAt(es[1..], i - 1);
    }
  }

  // ----- writers -----

  method WriteText(s: seq<byte>, data: array<byte>, start: nat, end: nat) returns (r: int)
    requires start <= end <= data.Length && |s| <= MAX_STRING
    modifies data
    ensures Wrote(EncodeText(s), old(data[..]), data[..], start, end, r)
  {
    var length := ToInt16(|s|);
    assert EncodeText(s) == Bytes16(|s|) + s;
    if end - start < 2 + length {
      return -1;
    }
    data[start] := |s| / 0x100;
    data[start + 1] := |s| % 0x100;
    assert data[..][start..start + 2] == Bytes16(|s|);
    if length <= 0 {
      assert EncodeText(s) == Bytes16(|s|);
      return 2;
    }
    forall k | 0 <= k < length {
      data[start + 2 + k] := s[k];
    }
    var w := data[..][start..start + 2 + length];
    assert forall k :: 0 <= k < |w| ==> w[k] == EncodeText(s)[k];
    return 2 + length;
  }

  method WriteByte(b: byte, data: array<byte>, start: nat, end: nat)
    requires start < end <= data.Length
    modifies data
    ensures Wrote([b], old(data[..]), data[..], start, end, 1)
  {
    data[start] := b;
    assert data[..][start..start + 1] == [b];
  }

  method WriteCopy(bytes: seq<byte>, data: array<byte>, start: nat, end: nat)
    requires start + |bytes| <= end <= data.Length
    modifies data
    ensures Wrote(bytes, old(data[..]), data[..], start, end, |bytes|)
  {
    forall k | 0 <= k < |bytes| {
      data[start + k] := bytes[k];
    }
    assert data[..][start..start + |bytes|] == bytes;
  }

  /** A value of a fixed size. */
  method WritePlain(bytes: seq<byte>, data: array<byte>, start: nat, end: nat) returns (r: int)
    requires start <= end <= data.Length
    modifies data
    ensures Wrote(bytes, old(data[..]), data[..], start, end, r)
  {
    if end - start < |bytes| {
      return -1;
    }
    WriteCopy(bytes, data, start, end);
    return |bytes|;
  }

  method WriteEnd(data: array<byte>, start: nat, end: nat) returns (r: int)
    requires start <= end <= data.Length
    modifies data
    ensures Wrote(END, old(data[..]), data[..], start, end, r)
  {
    if end - start < 3 {
      return -1;
    }
    data[start], data[start + 1], data[start + 2] := 0, 0, OBJECT_END;
    assert data[..][start..start + 3] == END;
    return 3;
  }

  /** A key and its value; r is -1 when one of them does not fit. */
  method WriteProperty(p: Property, data: array<byte>, start: nat, end: nat) returns (r: int)
    requires start <= end <= data.Length && |p.key| <= MAX_STRING && Short(p.value)
    modifies data
    ensures Wrote(EncodeText(p.key) + Encode(p.value), old(data[..]), data[..], start, end, r)
    decreases p, 0
  {
    hide Encode, EncodeText, Short, Wrote;
    ghost var k, e := EncodeText(p.key), Encode(p.value);
    ghost var s0 := data[..];
    var m := WriteText(p.key, data, start, end);
    WroteBounds(k, s0, data[..], start, end, m);
    if m < 0 {
      StillFails(k, k + e, s0, data[..], start, end);
      return -1;
    }
    ghost var s1 := data[..];
    var n := WriteAny(p.value, data, start + m, end);
    WroteBoth(k, e, s0, s1, data[..], start, end, m, n);
    WroteBounds(e, s1, data[..], start + m, end, n);
    return if n < 0 then -1 else m + n;
  }

  /** The properties and the object end, after a head that is already there. */
  method WriteProperties(head: seq<byte>, ps: seq<Property>, data: array<byte>, start: nat, end: nat,
                         ghost before: seq<byte>) returns (r: int)
    requires start <= end <= data.Length && AllShort(ps)
    requires Wrote(head, before, data[..], start, end, |head|)
    modifies data
    ensures Wrote(head + EncodeAll(ps) + END, before, data[..], start, end, r)
    decreases ps, 0
  {
    hide EncodeAll, Encode, EncodeText, AllShort, Short, Wrote;
    ghost var whole := head + EncodeAll(ps) + END;
    var offset: int := |head|;
    var i := 0;
    AfterHead(head, before, data[..], start, end, ps);
    while i < |ps|
      invariant i <= |ps|
      invariant 0 <= offset <= end - start
      invariant Wrote(head + EncodeAll(ps[..i]), before, data[..], start, end, offset)
    {
      EncodeAllStep(ps, i);
      ghost var p := EncodeText(ps[i].key) + Encode(ps[i].value);
      ghost var done := head + EncodeAll(ps[..i]);
      ghost var s1 := data[..];
      var n := WriteProperty(ps[i], data, start + offset, end);
      WroteBoth(done, p, before, s1, data[..], start, end, offset, n);
      WroteBounds(p, s1, data[..], start + offset, end, n);
      assert done + p == head + EncodeAll(ps[..i + 1]);
      if n < 0 {
        StillFails(done + p, whole, before, data[..], start, end);
        return -1;
      }
      offset := offset + n;
      i := i + 1;
    }
    assert ps[..i] == ps;
    ghost var s3 := data[..];
    r := WriteEnd(data, start + offset, end);
    WroteBoth(head + EncodeAll(ps), END, before, s3, data[..], start, end, offset, r);
    WroteBounds(END, s3, data[..], start + offset, end, r);
    if r >= 0 {
      r := offset + r;
    }
  }

  lemma {:induction false} AfterHead(head: seq<byte>, before: seq<byte>, after: seq<byte>, start: nat, end: nat, ps: seq<Property>)
    requires Wrote(head, before, after, start, end, |head|)
    ensures head + EncodeAll(ps[..0]) == head && |head| <= end - start
  {
  }

  lemma {:induction false} WroteBounds(b: seq<byte>, before: seq<byte>, after: seq<byte>, start: nat, end: nat, n: int)
    requires Wrote(b, before, after, start, end, n)
    ensures n == |b| <= end - start || n == -1
  {
  }

  /** The head of an array: its marker and its size field. */
  method WriteHead(marker: byte, size: int32, data: array<byte>, start: nat, end: nat)
    requires start + 5 <= end <= data.Length
    modifies data
    ensures Wrote([marker] + Bytes32(size as int % 0x1_0000_0000), old(data[..]), data[..], start, end, 5)
  {
    hide Wrote;
    ghost var s0 := data[..];
    WriteByte(marker, data, start, end);
    ghost var s1 := data[..];
    var word := Bytes32(size as int % 0x1_0000_0000);
    WriteCopy(word, data, start + 1, end);
    WroteBoth([marker], word, s0, s1, data[..], start, end, 1, 4);
  }

  /** Every value: r is the length of its encoding if that fits, and negative if not. */
  method WriteAny(v: Value, data: array<byte>, start: nat, end: nat) returns (r: int)
    requires start <= end <= data.Length && Short(v)
    modifies data
    ensures Wrote(Encode(v), old(data[..]), data[..], start, end, r)
    decreases v
  {
    hide EncodeAll, EncodeText, EncodeElements, Wrote, Bytes32;
    var len := end - start;
    ghost var s0 := data[..];
    match v {
      case String(text) =>
        if len < 1 {
          TooShort(Encode(v), s0, start, end);
          return -1;
        }
        WriteByte(STRING, data, start, end);
        ghost var s1 := data[..];
        r := WriteText(text, data, start + 1, end);
        WroteBoth([STRING], EncodeText(text), s0, s1, data[..], start, end, 1, r);
        WroteBounds(EncodeText(text), s1, data[..], start + 1, end, r);
        r := if r < 0 then r else 1 + r;
      case Object(ps) =>
        if len < 1 {
          TooShort(Encode(v), s0, start, end);
          return -1;
        }
        WriteByte(OBJECT, data, start, end);
        r := WriteProperties([OBJECT], ps, data, start, end, s0);
      case EcmaArray(n, ps) =>
        if len < 5 {
          TooShort(Encode(v), s0, start, end);
          return -1;
        }
        WriteHead(ECMA_ARRAY, n, data, start, end);
        r := WriteProperties([ECMA_ARRAY] + Bytes32(n as int % 0x1_0000_0000), ps, data, start, end, s0);
      case StrictArray(n, es) =>
        if len < 5 {
          TooShort(Encode(v), s0, start, end);
          return -1;
        }
        WriteHead(STRICT_ARRAY, n, data, start, end);
        r := WriteElements([STRICT_ARRAY] + Bytes32(n as int % 0x1_0000_0000), es, data, start, end, s0);
      case ObjectEnd =>
        r := WriteEnd(data, start, end);
      case Number(bits) =>
        r := WritePlain([NUMBER] + bits, data, start, end);
      case Boolean(flag) =>
        r := WritePlain(if flag then [BOOLEAN, 0x01] else [BOOLEAN, 0x00], data, start, end);
      case Null =>
        r := WritePlain([NULL], data, start, end);
      case Undefined =>
        r := WritePlain([UNDEFINED], data, start, end);
      case Date(millis, zone) =>
        r := WritePlain([DATE] + millis + zone, data, start, end);
    }
  }

  lemma {:induction false} TooShort(bytes: seq<byte>, s: seq<byte>, start: nat, end: nat)
    requires start <= end <= |s| && |bytes| > end - start
    ensures Wrote(bytes, s, s, start, end, -1)
  {
  }

  method WriteElements(head: seq<byte>, es: seq<Value>, data: array<byte>, start: nat, end: nat,
                       ghost before: seq<byte>) returns (r: int)
    requires start <= end <= data.Length && ElementsShort(es)
    requires Wrote(head, before, data[..], start, end, |head|)
    modifies data
    ensures Wrote(head + EncodeElements(es), before, data[..], start, end, r)
    decreases es, 0
  {
    hide EncodeElements, Encode, ElementsShort, Short, Wrote;
    ghost var whole := head + EncodeElements(es);
    var offset: int := |head|;
    var i := 0;
    AfterElementsHead(head, before, data[..], start, end, es);
    while i < |es|
      invariant i <= |es|
      invariant 0 <= offset <= end - start
      invariant Wrote(head + EncodeElements(es[..i]), before, data[..], start, end, offset)
    {
      EncodeElementsStep(es, i);
      ghost var e := Encode(es[i]);
      ghost var done := head + EncodeElements(es[..i]);
      ghost var s1 := data[..];
      var n := WriteAny(es[i], data, start + offset, end);
      WroteBoth(done, e, before, s1, data[..], start, end, offset, n);
      assert done + e == head + EncodeElements(es[..i + 1]);
      if n < 0 {
        StillFails(done + e, whole, before, data[..], start, end);
        return -1;
      }
      WroteBounds(e, s1, data[..], start + offset, end, n);
      offset := offset + n;
      i := i + 1;
    }
    assert es[..i] == es;
    return offset;
  }

  lemma {:induction false} AfterElementsHead(head: seq<byte>, before: seq<byte>, after: seq<byte>, start: nat, end: nat, es: seq<Value>)
    requires Wrote(head, before, after, start, end, |head|)
    ensures head + EncodeElements(es[..0]) == head && |head| <= end - start
  {
  }

  // ----- write, then read -----

  /** A well-formed value is written when the buffer has total_size bytes, and is then read back from the buffer. */
  lemma {:induction false} WrittenThenRead(v: Value, before: seq<byte>, after: seq<byte>, start: nat, end: nat, r: int)
    requires WellFormed(v) && Wrote(Encode(v), before, after, start, end, r)
    ensures r >= 0 <==> TotalSize(v) <= end - start
    ensures r >= 0 ==> r == TotalSize(v) && ReadAny(after[start..end]) == Done(v, r)
  {
    hide WellFormed, Encode, ReadAny;
    FormedShort(v);
    SizeExact(v);
    if r >= 0 {
      assert after[start..end] == after[start..start + r] + after[start + r..end];
      RoundTrip(v, after[start + r..end]);
    }
  }

  lemma {:induction false} FormedShort(v: Value)
    requires WellFormed(v)
    ensures Short(v)
    decreases v
  {
    match v
    case Object(ps) => AllFormedShort(ps);
    case EcmaArray(_, ps) => AllFormedShort(ps);
    case StrictArray(_, es) => ElementsFormedShort(es);
    case _ =>
  }

  lemma {:induction false} AllFormedShort(ps: seq<Property>)
    requires AllFormed(ps)
    ensures AllShort(ps)
    decreases ps
  {
    if ps != [] {
      FormedShort(ps[0].value);
      AllFormedShort(ps[1..]);
    }
  }

  lemma {:induction false} ElementsFormedShort(es: seq<Value>)
    requires ElementsFormed(es)
    ensures ElementsShort(es)
    decreases es
  {
    if es != [] {
      FormedShort(es[0]);
      ElementsFormedShort(es[1..]);
    }
  }
}
