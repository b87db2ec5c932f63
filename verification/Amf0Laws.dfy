/** What the AMF0 encoding, reader, size computation and copy promise. */
module Amf0Laws {
  import opened Basics
  import opened Amf0

  // ----- the key table -----

  lemma {:induction false} WithNew(ps: seq<Property>, key: seq<byte>, value: Value)
    requires forall k :: 0 <= k < |ps| ==> ps[k].key != key
    ensures With(ps, key, value) == ps + [Property(key, value)]
  {
    assert IndexOf(ps, key) == |ps|;
  }

  /** Keys stay distinct whatever is set. */
  lemma {:induction false} WithDistinct(ps: seq<Property>, key: seq<byte>, value: Value)
    requires Distinct(ps)
    ensures Distinct(With(ps, key, value))
  {
    var r, n := Without(ps, key), |Without(ps, key)|;
    WithoutPlaces(ps, key);
    forall a, b | 0 <= a < b <= n ensures With(ps, key, value)[a].key != With(ps, key, value)[b].key {
      hide Without;
      assert With(ps, key, value)[a] == r[a];
      if b < n {
        assert With(ps, key, value)[b] == r[b];
      }
    }
  }

  /** What is left has distinct keys, none of which is the key. */
  lemma {:induction false} WithoutPlaces(ps: seq<Property>, key: seq<byte>)
    requires Distinct(ps)
    ensures Distinct(Without(ps, key)) && forall k :: 0 <= k < |Without(ps, key)| ==> Without(ps, key)[k].key != key
  {
    var i, r := IndexOf(ps, key), Without(ps, key);
    if i < |ps| {
      assert |r| == |ps| - 1 && forall k :: 0 <= k < |r| ==> r[k] == if k < i then ps[k] else ps[k + 1];
    }
  }

  // ----- strings -----

  lemma {:induction false} ShortText(s: seq<byte>)
    requires |s| <= MAX_STRING
    ensures EncodeText(s) == Bytes16(|s|) + s && |EncodeText(s)| == 2 + |s|
  {
  }

  lemma {:induction false} TextRoundTrip(s: seq<byte>, suffix: seq<byte>)
    requires |s| <= MAX_STRING
    ensures ReadText(EncodeText(s) + suffix) == Done(s, |EncodeText(s)|)
    ensures |EncodeText(s)| == 2 + |s|
  {
    hide EncodeText, Bytes16, Be16;
    ShortText(s);
    var b := EncodeText(s) + suffix;
    Parts(Bytes16(|s|), s, suffix);
    assert b[0..2] == b[..2];
    Be16Inverts(|s|, b, 0);
  }

  /** A key and its value never look like the object end: no value starts with the end marker. */
  lemma {:induction false} NotEnd(key: seq<byte>, v: Value, suffix: seq<byte>)
    requires |key| <= MAX_STRING
    ensures !AtEnd(EncodeText(key) + Encode(v) + suffix)
  {
    var b := EncodeText(key) + Encode(v) + suffix;
    FirstByte(v);
    assert b[0] == |key| / 0x100 && b[1] == |key| % 0x100;
    if key == [] {
      assert b[2] == Encode(v)[0];
    }
  }

  lemma {:induction false} FirstByte(v: Value)
    ensures |Encode(v)| > 0 && Encode(v)[0] != OBJECT_END
  {
  }

  // ----- round trip -----

  lemma {:induction false} SizeWord(n: int32, b: seq<byte>)
    requires |b| >= 5 && b[1..5] == Bytes32(n as int % 0x1_0000_0000)
    ensures ToInt32(Be32(b, 1)) == n
  {
    Be32Inverts(n as int % 0x1_0000_0000, b, 1);
  }

  lemma {:induction false} NumberStart(bits: Word8, suffix: seq<byte>)
    ensures AtEnd([NUMBER] + bits + suffix) <==> bits[0] == 0 && bits[1] == OBJECT_END
  {
    var b := [NUMBER] + bits + suffix;
    assert b[1] == bits[0] && b[2] == bits[1];
  }

  lemma {:induction false} ObjectRead(ps: seq<Property>, suffix: seq<byte>)
    requires ReadProperties(EncodeAll(ps) + (END + suffix), []) == Done(ps, |EncodeAll(ps)| + 3)
    ensures ReadAny(Encode(Object(ps)) + suffix) == Done(Object(ps), |Encode(Object(ps))|)
  {
    hide EncodeAll, ReadProperties, ReadElements, ReadText;
    var b := Encode(Object(ps)) + suffix;
    assert b[0] == OBJECT && b[1..] == EncodeAll(ps) + (END + suffix);
  }

  lemma {:induction false} EcmaArrayRead(n: int32, ps: seq<Property>, suffix: seq<byte>)
    requires ReadProperties(EncodeAll(ps) + (END + suffix), []) == Done(ps, |EncodeAll(ps)| + 3)
    ensures ReadAny(Encode(EcmaArray(n, ps)) + suffix) == Done(EcmaArray(n, ps), |Encode(EcmaArray(n, ps))|)
  {
    hide EncodeAll, ReadProperties, ReadElements, ReadText, Be32, Bytes32, ToInt32;
    var b := Encode(EcmaArray(n, ps)) + suffix;
    assert b[0] == ECMA_ARRAY && b[1..5] == Bytes32(n as int % 0x1_0000_0000);
    assert b[5..] == EncodeAll(ps) + (END + suffix);
    SizeWord(n, b);
  }

  lemma {:induction false} StrictArrayRead(n: int32, es: seq<Value>, suffix: seq<byte>)
    requires ReadElements(EncodeElements(es) + suffix, n, []) == Done(es, |EncodeElements(es)|)
    ensures ReadAny(Encode(StrictArray(n, es)) + suffix) == Done(StrictArray(n, es), |Encode(StrictArray(n, es))|)
  {
    hide EncodeElements, ReadProperties, ReadElements, ReadText, Be32, Bytes32, ToInt32;
    var b := Encode(StrictArray(n, es)) + suffix;
    assert b[0] == STRICT_ARRAY && b[1..5] == Bytes32(n as int % 0x1_0000_0000);
    assert b[5..] == EncodeElements(es) + suffix;
    SizeWord(n, b);
  }

  lemma {:induction false} PlainRead(v: Value, suffix: seq<byte>)
    requires WellFormed(v) && !v.Object? && !v.EcmaArray? && !v.StrictArray?
    ensures ReadAny(Encode(v) + suffix) == Done(v, |Encode(v)|)
  {
    hide ReadProperties, ReadElements, ReadText, EncodeText;
    var b := Encode(v) + suffix;
    assert b[0] == Encode(v)[0];
    match v
    case Number(bits) =>
      NumberStart(bits, suffix);
      assert b[1..9] == bits;
    case String(text) =>
      assert b[1..] == EncodeText(text) + suffix;
      TextRoundTrip(text, suffix);
    case Date(millis, zone) =>
      assert b[1..9] == millis && b[9..11] == zone;
    case _ =>
  }

  /** Every well-formed value is read back from its encoding, whatever follows it. */
  lemma {:induction false} RoundTrip(v: Value, suffix: seq<byte>)
    requires WellFormed(v)
    ensures ReadAny(Encode(v) + suffix) == Done(v, |Encode(v)|)
    decreases v
  {
    hide ReadAny, Encode, ReadProperties, ReadElements, EncodeAll, EncodeElements;
    match v
    case Object(ps) =>
      assert [] + ps == ps;
      PropertiesRoundTrip(ps, [], suffix);
      ObjectRead(ps, suffix);
    case EcmaArray(n, ps) =>
      assert [] + ps == ps;
      PropertiesRoundTrip(ps, [], suffix);
      EcmaArrayRead(n, ps, suffix);
    case StrictArray(n, es) =>
      assert [] + es == es;
      ElementsRoundTrip(es, n, [], suffix);
      StrictArrayRead(n, es, suffix);
    case _ =>
      PlainRead(v, suffix);
  }

  lemma {:induction false} EndAtEnd(suffix: seq<byte>)
    ensures AtEnd(END + suffix)
  {
  }

  lemma {:induction false} NewKey(table: seq<Property>, ps: seq<Property>)
    requires ps != [] && Distinct(table + ps)
    ensures forall k :: 0 <= k < |table| ==> table[k].key != ps[0].key
    ensures table + ps == table + [ps[0]] + ps[1..]
  {
    forall k | 0 <= k < |table| ensures table[k].key != ps[0].key {
      assert (table + ps)[k] == table[k] && (table + ps)[|table|] == ps[0];
    }
  }

  /** Properties that are well formed are read, and reading goes on behind them. */
  lemma {:induction false} PropertiesSkipped(ps: seq<Property>, table: seq<Property>, more: seq<byte>)
    requires Distinct(table + ps) && AllFormed(ps)
    ensures var r := ReadProperties(more, table + ps);
            ReadProperties(EncodeAll(ps) + more, table) ==
            if r.Failed? then Read.Failed else Done(r.value, |EncodeAll(ps)| + r.size)
    decreases ps, 0
  {
    hide Encode, ReadAny, WellFormed, With, EncodeText, ReadText, AtEnd, Distinct;
    var b := EncodeAll(ps) + more;
    if ps == [] {
      assert b == more && table + ps == table;
    } else {
      var key, v := ps[0].key, ps[0].value;
      var k, e := EncodeText(key), Encode(v);
      var rest := EncodeAll(ps[1..]) + more;
      assert b == k + e + rest == k + (e + rest);
      NotEnd(key, v, rest);
      TextRoundTrip(key, e + rest);
      assert b[|k|..] == e + rest;
      RoundTrip(v, rest);
      assert b[|k| + |e|..] == rest;
      NewKey(table, ps);
      WithNew(table, key, v);
      PropertiesSkipped(ps[1..], table + [ps[0]], more);
    }
  }

  lemma {:induction false} PropertiesRoundTrip(ps: seq<Property>, table: seq<Property>, suffix: seq<byte>)
    requires Distinct(table + ps) && AllFormed(ps)
    ensures ReadProperties(EncodeAll(ps) + (END + suffix), table) == Done(table + ps, |EncodeAll(ps)| + 3)
    decreases ps, 1
  {
    hide EncodeAll, AtEnd, Distinct, AllFormed;
    PropertiesSkipped(ps, table, END + suffix);
    EndAtEnd(suffix);
  }

  lemma {:induction false} ElementsRoundTrip(es: seq<Value>, n: int, elements: seq<Value>, suffix: seq<byte>)
    requires |es| == (if n > 0 then n else 0) && ElementsFormed(es)
    ensures ReadElements(EncodeElements(es) + suffix, n, elements) == Done(elements + es, |EncodeElements(es)|)
    decreases es
  {
    var b := EncodeElements(es) + suffix;
    if es == [] {
      assert elements + es == elements;
    } else {
      var rest := EncodeElements(es[1..]) + suffix;
      assert b == Encode(es[0]) + rest;
      RoundTrip(es[0], rest);
      assert b[|Encode(es[0])|..] == rest;
      assert elements + [es[0]] + es[1..] == elements + es;
      ElementsRoundTrip(es[1..], n - 1, elements + [es[0]], suffix);
    }
  }

  // ----- nothing else round-trips -----

  /** Whatever bytes it is given, a reader that stops before their end returns a well-formed value. */
  lemma {:induction false} ReadsWellFormed(b: seq<byte>)
    requires ReadAny(b).Done? && ReadAny(b).size < |b|
    ensures WellFormed(ReadAny(b).value)
    decreases |b|, 0
  {
    if !AtEnd(b) {
      if b[0] == NUMBER {
        assert ReadAny(b).value.bits == b[1..9];
      } else if b[0] == OBJECT {
        ReadsProperties(b[1..], []);
      } else if b[0] == ECMA_ARRAY {
        ReadsProperties(b[5..], []);
      } else if b[0] == STRICT_ARRAY {
        ReadsElements(b[5..], ToInt32(Be32(b, 1)), []);
      }
    }
  }

  lemma {:induction false} FormedSnoc(ps: seq<Property>, p: Property)
    requires AllFormed(ps) && |p.key| <= MAX_STRING && WellFormed(p.value)
    ensures AllFormed(ps + [p])
    decreases |ps|
  {
    if ps == [] {
      assert ps + [p] == [p] && [p][1..] == [];
    } else {
      assert (ps + [p])[0] == ps[0] && (ps + [p])[1..] == ps[1..] + [p];
      FormedSnoc(ps[1..], p);
    }
  }

  lemma {:induction false} FormedWithout(ps: seq<Property>, i: nat)
    requires AllFormed(ps) && i < |ps|
    ensures AllFormed(ps[..i] + ps[i + 1..])
    decreases |ps|
  {
    if i == 0 {
      assert ps[..0] + ps[1..] == ps[1..];
    } else {
      var r := ps[..i] + ps[i + 1..];
      assert r[0] == ps[0] && r[1..] == ps[1..][..i - 1] + ps[1..][i..];
      FormedWithout(ps[1..], i - 1);
    }
  }

  lemma {:induction false} WithFormed(ps: seq<Property>, key: seq<byte>, value: Value)
    requires AllFormed(ps) && |key| <= MAX_STRING && WellFormed(value)
    ensures AllFormed(With(ps, key, value))
  {
    var i := IndexOf(ps, key);
    if i < |ps| {
      FormedWithout(ps, i);
    }
    FormedSnoc(Without(ps, key), Property(key, value));
  }

  lemma {:induction false} TextShort(b: seq<byte>)
    ensures ReadText(b).Done? ==> |ReadText(b).value| <= MAX_STRING
  {
  }

  lemma {:induction false} ReadsProperties(b: seq<byte>, table: seq<Property>)
    requires Distinct(table) && AllFormed(table)
    requires ReadProperties(b, table).Done? && ReadProperties(b, table).size < |b|
    ensures var ps := ReadProperties(b, table).value; Distinct(ps) && AllFormed(ps)
    decreases |b|, 1
  {
    hide ReadAny, ReadText, With, Distinct, AllFormed, WellFormed, AtEnd;
    if !AtEnd(b) {
      var key := ReadText(b);
      TextShort(b);
      var v := ReadAny(b[key.size..]);
      ReadsWellFormed(b[key.size..]);
      WithDistinct(table, key.value, v.value);
      WithFormed(table, key.value, v.value);
      ReadsProperties(b[key.size + v.size..], With(table, key.value, v.value));
    }
  }

  lemma {:induction false} ElementsSnoc(es: seq<Value>, v: Value)
    requires ElementsFormed(es) && WellFormed(v)
    ensures ElementsFormed(es + [v])
    decreases |es|
  {
    if es == [] {
      assert es + [v] == [v] && [v][1..] == [];
    } else {
      assert (es + [v])[0] == es[0] && (es + [v])[1..] == es[1..] + [v];
      ElementsSnoc(es[1..], v);
    }
  }

  lemma {:induction false} ReadsElements(b: seq<byte>, n: int, elements: seq<Value>)
    requires ElementsFormed(elements)
    requires ReadElements(b, n, elements).Done? && ReadElements(b, n, elements).size < |b|
    ensures var es := ReadElements(b, n, elements).value;
            |es| == |elements| + (if n > 0 then n else 0) && ElementsFormed(es)
    decreases |b|, 1
  {
    if n > 0 {
      var v := ReadAny(b);
      ReadsWellFormed(b);
      ElementsSnoc(elements, v.value);
      ReadsElements(b[v.size..], n - 1, elements + [v.value]);
    }
  }

  /** A value with something behind it is read back with exactly its own bytes if and only if it is well formed. */
  lemma {:induction false} RoundTripInside(v: Value, suffix: seq<byte>)
    requires suffix != []
    ensures ReadAny(Encode(v) + suffix) == Done(v, |Encode(v)|) <==> WellFormed(v)
  {
    if WellFormed(v) {
      RoundTrip(v, suffix);
    } else if ReadAny(Encode(v) + suffix) == Done(v, |Encode(v)|) {
      ReadsWellFormed(Encode(v) + suffix);
      assert false;
    }
  }

  // ----- sizes -----

  lemma {:induction false} TextSize(s: seq<byte>)
    ensures |EncodeText(s)| <= 2 + |s|
    ensures |EncodeText(s)| == 2 + |s| <==> |s| <= MAX_STRING
  {
  }

  /** total_size is the length of the encoding exactly when all strings and keys are short. */
  lemma {:induction false} SizeExact(v: Value)
    ensures |Encode(v)| <= TotalSize(v)
    ensures |Encode(v)| == TotalSize(v) <==> Short(v)
    decreases v
  {
    match v
    case String(text) => TextSize(text);
    case Object(ps) => SizeAllExact(ps);
    case EcmaArray(_, ps) => SizeAllExact(ps);
    case StrictArray(_, es) => SizeElementsExact(es);
    case _ =>
  }

  lemma {:induction false} SizeAllExact(ps: seq<Property>)
    ensures |EncodeAll(ps)| <= SizeAll(ps)
    ensures |EncodeAll(ps)| == SizeAll(ps) <==> AllShort(ps)
    decreases ps
  {
    if ps != [] {
      TextSize(ps[0].key);
      SizeExact(ps[0].value);
      SizeAllExact(ps[1..]);
    }
  }

  lemma {:induction false} SizeElementsExact(es: seq<Value>)
    ensures |EncodeElements(es)| <= SizeElements(es)
    ensures |EncodeElements(es)| == SizeElements(es) <==> ElementsShort(es)
    decreases es
  {
    if es != [] {
      SizeExact(es[0]);
      SizeElementsExact(es[1..]);
    }
  }

  // ----- copies -----

  /** A C string ends at the first zero byte. */
  function CString(s: seq<byte>): seq<byte> {
    if s == [] || s[0] == 0 then [] else [s[0]] + CString(s[1..])
  }

  function Copy(v: Value): Value
    decreases v
  {
    match v
    case String(text) => String(CString(text))
    case Object(ps) => Object(CopyInto([], ps))
    case EcmaArray(n, ps) => EcmaArray(n, CopyInto([], ps))
    case StrictArray(n, es) => StrictArray(n, CopyElements(es))
    case _ => v
  }

  function CopyInto(table: seq<Property>, ps: seq<Property>): seq<Property>
    decreases ps
  {
    if ps == [] then table
    else CopyInto(With(table, ps[0].key, Copy(ps[0].value)), ps[1..])
  }

  function CopyElements(es: seq<Value>): seq<Value>
    decreases es
  {
    if es == [] then [] else [Copy(es[0])] + CopyElements(es[1..])
  }

  /** No string value holds a zero byte, and no object holds a key twice. */
  predicate Copyable(v: Value)
    decreases v
  {
    match v
    case String(text) => 0 !in text
    case Object(ps) => Distinct(ps) && AllCopyable(ps)
    case EcmaArray(_, ps) => Distinct(ps) && AllCopyable(ps)
    case StrictArray(_, es) => ElementsCopyable(es)
    case _ => true
  }

  predicate AllCopyable(ps: seq<Property>)
    decreases ps
  {
    ps != [] ==> Copyable(ps[0].value) && AllCopyable(ps[1..])
  }

  predicate ElementsCopyable(es: seq<Value>)
    decreases es
  {
    es != [] ==> Copyable(es[0]) && ElementsCopyable(es[1..])
  }

  lemma {:induction false} CStringWhole(s: seq<byte>)
    ensures CString(s) == s <==> 0 !in s
    decreases |s|
  {
    if s != [] && s[0] != 0 {
      CStringWhole(s[1..]);
      assert s == [s[0]] + s[1..];
      assert CString(s)[1..] == CString(s[1..]);
      assert 0 in s ==> 0 in s[1..];
    }
  }

  lemma {:induction false} CopyIntoDistinct(table: seq<Property>, ps: seq<Property>)
    requires Distinct(table)
    ensures Distinct(CopyInto(table, ps))
    decreases |ps|
  {
    if ps != [] {
      WithDistinct(table, ps[0].key, Copy(ps[0].value));
      CopyIntoDistinct(With(table, ps[0].key, Copy(ps[0].value)), ps[1..]);
    }
  }

  function CopyEach(ps: seq<Property>): (r: seq<Property>)
    ensures |r| == |ps| && forall i :: 0 <= i < |ps| ==> r[i].key == ps[i].key
    decreases ps
  {
    if ps == [] then [] else [Property(ps[0].key, Copy(ps[0].value))] + CopyEach(ps[1..])
  }

  lemma {:induction false} CopyEachExactly(ps: seq<Property>)
    ensures CopyEach(ps) == ps <==> AllCopyable(ps)
    decreases ps, 0
  {
    hide Copy, Copyable;
    if ps != [] {
      CopyExactly(ps[0].value);
      CopyEachExactly(ps[1..]);
      var p := Property(ps[0].key, Copy(ps[0].value));
      assert CopyEach(ps)[0] == p && CopyEach(ps)[1..] == CopyEach(ps[1..]);
      assert ps == [ps[0]] + ps[1..];
    }
  }

  /** Copying keys that are all new adds the copied values in order. */
  lemma {:induction false} CopyIntoNew(table: seq<Property>, ps: seq<Property>)
    requires Distinct(table + ps)
    ensures CopyInto(table, ps) == table + CopyEach(ps)
    decreases |ps|
  {
    hide Copy, With, Distinct;
    if ps == [] {
      assert table + CopyEach(ps) == table;
    } else {
      var p := Property(ps[0].key, Copy(ps[0].value));
      NewKey(table, ps);
      WithNew(table, p.key, p.value);
      SameKeys(table, ps, p);
      CopyIntoNew(table + [p], ps[1..]);
      assert CopyEach(ps) == [p] + CopyEach(ps[1..]);
      assert table + [p] + CopyEach(ps[1..]) == table + ([p] + CopyEach(ps[1..]));
    }
  }

  lemma {:induction false} SameKeys(table: seq<Property>, ps: seq<Property>, p: Property)
    requires ps != [] && p.key == ps[0].key && Distinct(table + ps)
    ensures Distinct(table + [p] + ps[1..])
  {
    var a, b := table + ps, table + [p] + ps[1..];
    assert |a| == |b| && forall i :: 0 <= i < |a| ==> b[i] == if i == |table| then p else a[i];
    assert a[|table|] == ps[0];
  }

  lemma {:induction false} CopyElementsExactly(es: seq<Value>)
    ensures |CopyElements(es)| == |es|
    ensures CopyElements(es) == es <==> ElementsCopyable(es)
    decreases es
  {
    hide Copy, Copyable;
    if es != [] {
      CopyExactly(es[0]);
      CopyElementsExactly(es[1..]);
      var r := [Copy(es[0])] + CopyElements(es[1..]);
      assert CopyElements(es) == r && r[0] == Copy(es[0]) && r[1..] == CopyElements(es[1..]);
      assert es == [es[0]] + es[1..];
    }
  }

  lemma {:induction false} CopyTable(ps: seq<Property>)
    ensures CopyInto([], ps) == ps <==> Distinct(ps) && AllCopyable(ps)
    decreases ps, 1
  {
    hide CopyInto, CopyEach, AllCopyable;
    CopyIntoDistinct([], ps);
    if Distinct(ps) {
      assert [] + ps == ps && [] + CopyEach(ps) == CopyEach(ps);
      CopyIntoNew([], ps);
      CopyEachExactly(ps);
    }
  }

  /** A copy equals its original exactly when no string value holds a zero byte and no key occurs twice. */
  lemma {:induction false} CopyExactly(v: Value)
    ensures Copy(v) == v <==> Copyable(v)
    decreases v
  {
    hide Distinct, CopyInto, CopyElements, CString;
    match v
    case String(text) => CStringWhole(text);
    case Object(ps) => CopyTable(ps);
    case EcmaArray(_, ps) => CopyTable(ps);
    case StrictArray(_, es) => CopyElementsExactly(es);
    case _ =>
  }
}
