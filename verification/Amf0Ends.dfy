/** AMF0 values at the very end of a buffer, where the reader closes what is still open. */
module Amf0Ends {
  import opened Basics
  import opened Amf0
  import opened Amf0Laws

  /** Well formed, or a strict array that announces more elements than it has, as the last thing of all. */
  predicate EndFormed(v: Value)
    decreases v
  {
    match v
    case StrictArray(n, es) =>
      |es| <= (if n > 0 then n as int else 0)
      && (es != [] ==> ElementsFormed(es[..|es| - 1]) && EndFormed(es[|es| - 1]))
    case _ => WellFormed(v)
  }

  /** What a reader can return at all: only the last thing in a value may be cut short. */
  predicate TailFormed(v: Value)
    decreases v
  {
    match v
    case Object(ps) => TableFormed(ps)
    case EcmaArray(_, ps) => TableFormed(ps)
    case StrictArray(n, es) => |es| <= (if n > 0 then n as int else 0) && ListFormed(es)
    case _ => WellFormed(v)
  }

  predicate TableFormed(ps: seq<Property>)
    decreases ps
  {
    && Distinct(ps)
    && (ps != [] ==>
          var p := ps[|ps| - 1];
          AllFormed(ps[..|ps| - 1]) && |p.key| <= MAX_STRING && TailFormed(p.value))
  }

  predicate ListFormed(es: seq<Value>)
    decreases es
  {
    es != [] ==> ElementsFormed(es[..|es| - 1]) && TailFormed(es[|es| - 1])
  }

  // ----- what is well formed is so at the end -----

  lemma {:induction false} AllFormedParts(ps: seq<Property>)
    requires AllFormed(ps) && ps != []
    ensures AllFormed(ps[..|ps| - 1]) && |ps[|ps| - 1].key| <= MAX_STRING && WellFormed(ps[|ps| - 1].value)
    decreases |ps|
  {
    if |ps| > 1 {
      AllFormedParts(ps[1..]);
      assert ps[1..][..|ps| - 2] == ps[..|ps| - 1][1..];
      assert ps[..|ps| - 1][0] == ps[0] && ps[1..][|ps| - 2] == ps[|ps| - 1];
    }
  }

  lemma {:induction false} ElementsFormedParts(es: seq<Value>)
    requires ElementsFormed(es) && es != []
    ensures ElementsFormed(es[..|es| - 1]) && WellFormed(es[|es| - 1])
    decreases |es|
  {
    if |es| > 1 {
      ElementsFormedParts(es[1..]);
      assert es[1..][..|es| - 2] == es[..|es| - 1][1..];
      assert es[..|es| - 1][0] == es[0] && es[1..][|es| - 2] == es[|es| - 1];
    }
  }

  lemma {:induction false} FormedTail(v: Value)
    requires WellFormed(v)
    ensures TailFormed(v) && EndFormed(v)
    decreases v
  {
    match v
    case Object(ps) => FormedTable(ps);
    case EcmaArray(_, ps) => FormedTable(ps);
    case StrictArray(n, es) =>
      if es != [] {
        ElementsFormedParts(es);
        FormedTail(es[|es| - 1]);
      }
    case _ =>
  }

  lemma {:induction false} FormedTable(ps: seq<Property>)
    requires Distinct(ps) && AllFormed(ps)
    ensures TableFormed(ps)
    decreases ps
  {
    if ps != [] {
      AllFormedParts(ps);
      FormedTail(ps[|ps| - 1].value);
    }
  }

  lemma {:induction false} TableSnoc(ps: seq<Property>, p: Property)
    requires Distinct(ps + [p]) && AllFormed(ps) && |p.key| <= MAX_STRING && TailFormed(p.value)
    ensures TableFormed(ps + [p])
  {
    hide TailFormed, AllFormed, Distinct;
    assert (ps + [p])[..|ps|] == ps;
  }

  lemma {:induction false} ListSnoc(es: seq<Value>, e: Value)
    requires ElementsFormed(es) && TailFormed(e)
    ensures ListFormed(es + [e])
  {
    hide TailFormed, ElementsFormed;
    assert (es + [e])[..|es|] == es;
  }

  // ----- whatever is read -----

  lemma {:induction false} ReadsTail(b: seq<byte>)
    requires ReadAny(b).Done?
    ensures TailFormed(ReadAny(b).value)
    decreases |b|, 0
  {
    if ReadAny(b).size < |b| {
      ReadsWellFormed(b);
      FormedTail(ReadAny(b).value);
    } else if !AtEnd(b) {
      hide TableFormed, ListFormed;
      if b[0] == NUMBER {
        assert ReadAny(b).value.bits == b[1..9];
      } else if b[0] == OBJECT {
        PropertiesTail(b[1..], []);
      } else if b[0] == ECMA_ARRAY {
        PropertiesTail(b[5..], []);
      } else if b[0] == STRICT_ARRAY {
        ElementsTail(b[5..], ToInt32(Be32(b, 1)), []);
      }
    }
  }

  lemma {:induction false} PropertiesTail(b: seq<byte>, table: seq<Property>)
    requires Distinct(table) && AllFormed(table) && ReadProperties(b, table).Done?
    ensures TableFormed(ReadProperties(b, table).value)
    decreases |b|, 1
  {
    hide ReadAny, ReadText, With, Distinct, AllFormed, WellFormed, AtEnd, TableFormed;
    if b == [] || AtEnd(b) {
      FormedTable(table);
    } else {
      var key := ReadText(b);
      TextShort(b);
      var v := ReadAny(b[key.size..]);
      WithDistinct(table, key.value, v.value);
      if v.size < |b[key.size..]| {
        ReadsWellFormed(b[key.size..]);
        WithFormed(table, key.value, v.value);
        PropertiesTail(b[key.size + v.size..], With(table, key.value, v.value));
      } else {
        ReadsTail(b[key.size..]);
        LastTail(table, key.value, v.value);
      }
    }
  }

  lemma {:induction false} LastTail(table: seq<Property>, key: seq<byte>, v: Value)
    requires Distinct(With(table, key, v)) && AllFormed(table) && |key| <= MAX_STRING && TailFormed(v)
    ensures TableFormed(With(table, key, v))
  {
    hide TailFormed, TableFormed, AllFormed, Distinct;
    var i := IndexOf(table, key);
    if i < |table| {
      FormedWithout(table, i);
    }
    TableSnoc(Without(table, key), Property(key, v));
  }

  lemma {:induction false} FormedList(es: seq<Value>)
    requires ElementsFormed(es)
    ensures ListFormed(es)
  {
    if es != [] {
      ElementsFormedParts(es);
      FormedTail(es[|es| - 1]);
    }
  }

  lemma {:induction false} ElementsTail(b: seq<byte>, n: int, elements: seq<Value>)
    requires ElementsFormed(elements) && ReadElements(b, n, elements).Done?
    ensures var es := ReadElements(b, n, elements).value;
            |es| <= |elements| + (if n > 0 then n else 0) && ListFormed(es)
    decreases |b|, 1
  {
    hide ListFormed, ReadAny, WellFormed;
    if n <= 0 || b == [] {
      FormedList(elements);
    } else {
      var v := ReadAny(b);
      if v.size < |b| {
        ReadsWellFormed(b);
        ElementsSnoc(elements, v.value);
        ElementsTail(b[v.size..], n - 1, elements + [v.value]);
      } else {
        ReadsTail(b);
        ListSnoc(elements, v.value);
      }
    }
  }

  // ----- what is cut short takes what follows for its own -----

  function Ends(j: nat): seq<byte> {
    if j == 0 then [] else END + Ends(j - 1)
  }

  lemma {:induction false} EndsStart(j: nat)
    ensures j > 0 ==> |Ends(j)| >= 3 && AtEnd(Ends(j)) && Ends(j)[3..] == Ends(j - 1)
  {
    if j > 0 {
      assert (END + Ends(j - 1))[3..] == Ends(j - 1);
    }
  }

  /** Nothing but object ends is left, fewer than before. */
  predicate LeavesEnds(b: seq<byte>, size: nat, j: nat) {
    size <= |b| && exists i: nat :: i < j && b[size..] == Ends(i)
  }

  lemma {:induction false} LeavesBy(b: seq<byte>, size: nat, j: nat, i: nat)
    requires size <= |b| && i < j && b[size..] == Ends(i)
    ensures LeavesEnds(b, size, j)
  {
  }

  lemma {:induction false} EncodeAllSnoc(ps: seq<Property>)
    requires ps != []
    ensures var p := ps[|ps| - 1];
            EncodeAll(ps) == EncodeAll(ps[..|ps| - 1]) + (EncodeText(p.key) + Encode(p.value))
    decreases |ps|
  {
    hide EncodeText, Encode;
    if |ps| == 1 {
      assert ps[..0] == [] && ps[1..] == [];
    } else {
      EncodeAllSnoc(ps[1..]);
      assert ps[1..][..|ps| - 2] == ps[..|ps| - 1][1..];
      assert ps[..|ps| - 1][0] == ps[0];
    }
  }

  lemma {:induction false} EndElement(j: nat, n: int, elements: seq<Value>)
    requires n > 0 && j > 0
    ensures var r := ReadElements(Ends(j - 1), n - 1, elements + [ObjectEnd]);
            ReadElements(Ends(j), n, elements) == if r.Failed? then Read.Failed else Done(r.value, 3 + r.size)
  {
    hide Ends, AtEnd;
    EndsStart(j);
  }

  /** Elements read from nothing but object ends. */
  lemma {:induction false} EndsRead(j: nat, n: int, elements: seq<Value>)
    ensures var r := ReadElements(Ends(j), n, elements);
            && r.Done? && |r.value| >= |elements| && r.value[..|elements|] == elements
            && (n > 0 && j > 0 ==> |r.value| > |elements| && LeavesEnds(Ends(j), r.size, j))
            && (n <= 0 || j == 0 ==> r == Done(elements, 0))
    decreases j
  {
    hide ReadAny;
    if n > 0 && j > 0 {
      hide Ends, ReadElements, LeavesEnds;
      EndsStart(j);
      EndElement(j, n, elements);
      var more := elements + [ObjectEnd];
      EndsRead(j - 1, n - 1, more);
      var r := ReadElements(Ends(j - 1), n - 1, more);
      assert r.value[..|elements|] == r.value[..|more|][..|elements|] == elements;
      if n - 1 > 0 && j - 1 > 0 {
        LeavesShifted(Ends(j - 1), Ends(j), 3, r.size, j - 1);
        LeavesMore(Ends(j), 3 + r.size, j - 1);
      } else {
        LeavesBy(Ends(j), 3, j, j - 1);
      }
    }
  }

  lemma {:induction false} LeavesMore(b: seq<byte>, size: nat, j: nat)
    requires LeavesEnds(b, size, j)
    ensures LeavesEnds(b, size, j + 1)
  {
  }

  /**
   A value that is cut short, followed by object ends, is read as another value, and only object ends
   are left.
   */
  lemma {:induction false} Swallows(v: Value, j: nat)
    requires TailFormed(v) && !WellFormed(v) && j > 0
    ensures var b := Encode(v) + Ends(j);
            var r := ReadAny(b);
            r.Done? && r.value != v && LeavesEnds(b, r.size, j)
    decreases v, 1
  {
    hide ReadAny, Encode, ReadProperties, ReadElements, EncodeAll, EncodeElements, TableFormed, ListFormed;
    var b := Encode(v) + Ends(j);
    match v
    case Object(ps) =>
      TableDistinct(ps);
      TableSwallows(ps, j);
      ObjectShifts(ps, j);
      var c := EncodeAll(ps) + (END + Ends(j));
      LeavesShifted(c, b, 1, ReadProperties(c, []).size, j);
    case EcmaArray(n, ps) =>
      TableDistinct(ps);
      TableSwallows(ps, j);
      EcmaArrayShifts(n, ps, j);
      var c := EncodeAll(ps) + (END + Ends(j));
      LeavesShifted(c, b, 5, ReadProperties(c, []).size, j);
    case StrictArray(n, es) =>
      ListSwallows(es, n, [], j);
      StrictArrayShifts(n, es, j);
      assert [] + es == es;
      var c := EncodeElements(es) + Ends(j);
      LeavesShifted(c, b, 5, ReadElements(c, n, []).size, j);
  }

  lemma {:induction false} LastIll(ps: seq<Property>)
    requires TableFormed(ps) && !AllFormed(ps)
    ensures ps != [] && !WellFormed(ps[|ps| - 1].value)
  {
    hide WellFormed, TailFormed, Distinct, AllFormed;
    NoneFormed();
    if ps != [] {
      var init, p := ps[..|ps| - 1], ps[|ps| - 1];
      assert init + [p] == ps;
      if WellFormed(p.value) {
        FormedSnoc(init, p);
      }
    }
  }

  lemma {:induction false} NoneFormed()
    ensures AllFormed([])
  {
  }

  lemma {:induction false} TableDistinct(ps: seq<Property>)
    requires TableFormed(ps)
    ensures Distinct(ps)
  {
  }

  /** The table closes with the first object end that is left. */
  lemma {:induction false} TableCloses(i: nat, table: seq<Property>)
    ensures ReadProperties(Ends(i), table) == Done(table, if i == 0 then 0 else 3)
  {
    EndsStart(i);
  }

  /** The key and the value of the last property, and then the close. */
  lemma {:induction false} LastRead(key: seq<byte>, w: Value, table: seq<Property>, i: nat, more: seq<byte>)
    requires |key| <= MAX_STRING && forall k :: 0 <= k < |table| ==> table[k].key != key
    requires var r := ReadAny(Encode(w) + more); r.Done? && (Encode(w) + more)[r.size..] == Ends(i)
    ensures var d, r := EncodeText(key) + Encode(w) + more, ReadAny(Encode(w) + more);
            var size := |EncodeText(key)| + r.size + if i == 0 then 0 else 3;
            && ReadProperties(d, table) == Done(table + [Property(key, r.value)], size)
            && size <= |d| && d[size..] == Ends(if i == 0 then 0 else i - 1)
  {
    hide Encode, ReadAny, With, EncodeText, ReadText, AtEnd, Ends;
    var k, b := EncodeText(key), Encode(w) + more;
    var d, r := k + Encode(w) + more, ReadAny(b);
    assert d == k + b;
    NotEnd(key, w, more);
    TextRoundTrip(key, b);
    assert d[|k|..] == b;
    assert d[|k| + r.size..] == b[r.size..];
    WithNew(table, key, r.value);
    TableCloses(i, table + [Property(key, r.value)]);
    EndsStart(i);
    assert i > 0 ==> d[|k| + r.size + 3..] == d[|k| + r.size..][3..];
  }

  lemma {:induction false} LastProperty(p: Property, table: seq<Property>, j: nat)
    requires |p.key| <= MAX_STRING && Distinct(table + [p]) && TailFormed(p.value) && !WellFormed(p.value) && j > 0
    ensures var d := EncodeText(p.key) + Encode(p.value) + Ends(j);
            var r := ReadProperties(d, table);
            && r.Done? && r.value != table + [p]
            && r.size <= |d| && exists i: nat :: (i == 0 || i < j - 1) && d[r.size..] == Ends(i)
    decreases p.value, 2
  {
    hide Encode, ReadAny, TailFormed, WellFormed, EncodeText, Distinct, Ends, ReadProperties;
    var b := Encode(p.value) + Ends(j);
    Swallows(p.value, j);
    var r := ReadAny(b);
    var i: nat :| i < j && b[r.size..] == Ends(i);
    LastNew(table, p);
    LastRead(p.key, p.value, table, i, Ends(j));
    assert (table + [Property(p.key, r.value)])[|table|] != (table + [p])[|table|];
    assert (if i == 0 then 0 else i - 1) == 0 || i - 1 < j - 1;
  }

  lemma {:induction false} LastNew(table: seq<Property>, p: Property)
    requires Distinct(table + [p])
    ensures Distinct(table) && forall k :: 0 <= k < |table| ==> table[k].key != p.key
  {
    var ps := table + [p];
    assert ps[|table|] == p && forall k :: 0 <= k < |table| ==> ps[k] == table[k];
  }

  /** Properties of which the last is cut short. */
  lemma {:induction false} TableSwallows(ps: seq<Property>, j: nat)
    requires TableFormed(ps) && !AllFormed(ps)
    ensures var c := EncodeAll(ps) + (END + Ends(j));
            var r := ReadProperties(c, []);
            && r.Done? && r.value != ps
            && r.size <= |c| && (j > 0 ==> LeavesEnds(c, r.size, j))
    decreases ps, 1
  {
    hide Encode, ReadAny, TailFormed, WellFormed, EncodeText, ReadProperties, EncodeAll, Distinct, Ends;
    LastIll(ps);
    var init, p := ps[..|ps| - 1], ps[|ps| - 1];
    assert ps == init + [p];
    EncodeAllSnoc(ps);
    MoreEnds(j);
    var d := EncodeText(p.key) + Encode(p.value) + Ends(j + 1);
    var c := EncodeAll(ps) + (END + Ends(j));
    assert c == EncodeAll(init) + d;
    LastNew(init, p);
    assert [] + init == init;
    PropertiesSkipped(init, [], d);
    LastProperty(p, init, j + 1);
    var r := ReadProperties(d, init);
    var i: nat :| (i == 0 || i < j) && d[r.size..] == Ends(i);
    assert c[|EncodeAll(init)| + r.size..] == d[r.size..];
    if j > 0 {
      LeavesBy(c, |EncodeAll(init)| + r.size, j, i);
    }
  }

  lemma {:induction false} MoreEnds(j: nat)
    ensures Ends(j + 1) == END + Ends(j)
  {
  }

  lemma {:induction false} ListSwallows(es: seq<Value>, n: int, elements: seq<Value>, j: nat)
    requires |es| <= (if n > 0 then n else 0) && ListFormed(es) && j > 0
    requires !(|es| == (if n > 0 then n else 0) && ElementsFormed(es))
    ensures var c := EncodeElements(es) + Ends(j);
            var r := ReadElements(c, n, elements);
            r.Done? && r.value != elements + es && LeavesEnds(c, r.size, j)
    decreases es, 1
  {
    hide Encode, ReadAny, TailFormed, WellFormed, Ends, ReadElements, LeavesEnds;
    var c := EncodeElements(es) + Ends(j);
    if es == [] {
      assert c == Ends(j);
      EndsRead(j, n, elements);
    } else {
      var e := es[0];
      var rest := EncodeElements(es[1..]) + Ends(j);
      assert c == Encode(e) + rest;
      if |es| == 1 && !WellFormed(e) {
        assert es[1..] == [] && rest == Ends(j);
        Swallows(e, j);
        LastElement(e, n, elements, j);
        assert elements + es == elements + [e];
      } else {
        FirstFormed(es);
        ListSwallows(es[1..], n - 1, elements + [e], j);
        assert elements + [e] + es[1..] == elements + es;
        NextElement(e, rest, n, elements, j);
      }
    }
  }

  lemma {:induction false} NextElement(e: Value, rest: seq<byte>, n: int, elements: seq<Value>, j: nat)
    requires n > 0 && WellFormed(e)
    requires var r := ReadElements(rest, n - 1, elements + [e]); r.Done? && LeavesEnds(rest, r.size, j)
    ensures var c, r := Encode(e) + rest, ReadElements(rest, n - 1, elements + [e]);
            ReadElements(c, n, elements) == Done(r.value, |Encode(e)| + r.size) && LeavesEnds(c, |Encode(e)| + r.size, j)
  {
    hide Encode, ReadAny, WellFormed, Ends;
    var c := Encode(e) + rest;
    RoundTrip(e, rest);
    assert c[|Encode(e)|..] == rest;
    LeavesShifted(rest, c, |Encode(e)|, ReadElements(rest, n - 1, elements + [e]).size, j);
  }

  lemma {:induction false} FirstFormed(es: seq<Value>)
    requires ListFormed(es) && es != [] && (|es| > 1 || WellFormed(es[0]))
    ensures WellFormed(es[0]) && ListFormed(es[1..]) && (ElementsFormed(es[1..]) ==> ElementsFormed(es))
  {
    hide WellFormed, TailFormed;
    if |es| > 1 {
      assert es[..|es| - 1][0] == es[0] && es[..|es| - 1][1..] == es[1..][..|es| - 2];
      assert es[1..][|es| - 2] == es[|es| - 1];
    }
  }

  /** The last element is cut short: something else comes in its place. */
  lemma {:induction false} LastElement(e: Value, n: int, elements: seq<Value>, j: nat)
    requires n > 0 && j > 0
    requires var b := Encode(e) + Ends(j);
             var r := ReadAny(b);
             r.Done? && r.value != e && LeavesEnds(b, r.size, j)
    ensures var b := Encode(e) + Ends(j);
            var r := ReadElements(b, n, elements);
            r.Done? && r.value != elements + [e] && LeavesEnds(b, r.size, j)
  {
    hide Encode, ReadAny, Ends;
    var b := Encode(e) + Ends(j);
    var r := ReadAny(b);
    var i: nat :| i < j && b[r.size..] == Ends(i);
    var more := elements + [r.value];
    EndsRead(i, n - 1, more);
    var s := ReadElements(Ends(i), n - 1, more);
    assert s.value[|elements|] == s.value[..|more|][|elements|] == r.value;
    assert (elements + [e])[|elements|] == e;
    if n - 1 > 0 && i > 0 {
      var k: nat :| k < i && Ends(i)[s.size..] == Ends(k);
      assert b[r.size + s.size..] == b[r.size..][s.size..];
      LeavesBy(b, r.size + s.size, j, k);
    } else {
      LeavesBy(b, r.size, j, i);
    }
  }

  // The marker and the announced size in front.

  lemma {:induction false} ObjectShifts(ps: seq<Property>, j: nat)
    requires ReadProperties(EncodeAll(ps) + (END + Ends(j)), []).Done?
    ensures var c, b := EncodeAll(ps) + (END + Ends(j)), Encode(Object(ps)) + Ends(j);
            var r := ReadProperties(c, []);
            && |b| == 1 + |c| && b[1..] == c
            && ReadAny(b) == Done(Object(r.value), 1 + r.size)
  {
    hide EncodeAll, ReadProperties, ReadElements, ReadText, Ends;
    var b := Encode(Object(ps)) + Ends(j);
    assert b[0] == OBJECT && b[1..] == EncodeAll(ps) + (END + Ends(j));
  }

  lemma {:induction false} EcmaArrayShifts(n: int32, ps: seq<Property>, j: nat)
    requires ReadProperties(EncodeAll(ps) + (END + Ends(j)), []).Done?
    ensures var c, b := EncodeAll(ps) + (END + Ends(j)), Encode(EcmaArray(n, ps)) + Ends(j);
            var r := ReadProperties(c, []);
            && |b| == 5 + |c| && b[5..] == c
            && ReadAny(b) == Done(EcmaArray(n, r.value), 5 + r.size)
  {
    hide EncodeAll, ReadProperties, ReadElements, ReadText, Be32, Bytes32, ToInt32, Ends;
    var b := Encode(EcmaArray(n, ps)) + Ends(j);
    assert b[0] == ECMA_ARRAY && b[1..5] == Bytes32(n as int % TWO32);
    assert b[5..] == EncodeAll(ps) + (END + Ends(j));
    SizeWord(n, b);
  }

  lemma {:induction false} StrictArrayShifts(n: int32, es: seq<Value>, j: nat)
    requires ReadElements(EncodeElements(es) + Ends(j), n, []).Done?
    ensures var c, b := EncodeElements(es) + Ends(j), Encode(StrictArray(n, es)) + Ends(j);
            var r := ReadElements(c, n, []);
            && |b| == 5 + |c| && b[5..] == c
            && ReadAny(b) == Done(StrictArray(n, r.value), 5 + r.size)
  {
    hide EncodeElements, ReadProperties, ReadElements, ReadText, Be32, Bytes32, ToInt32, Ends;
    var b := Encode(StrictArray(n, es)) + Ends(j);
    assert b[0] == STRICT_ARRAY && b[1..5] == Bytes32(n as int % TWO32);
    assert b[5..] == EncodeElements(es) + Ends(j);
    SizeWord(n, b);
  }

  /** What is left of a part is left of the whole. */
  lemma {:induction false} LeavesShifted(c: seq<byte>, b: seq<byte>, start: nat, size: nat, j: nat)
    requires start <= |b| && b[start..] == c && LeavesEnds(c, size, j)
    ensures LeavesEnds(b, start + size, j)
  {
    var i: nat :| i < j && c[size..] == Ends(i);
    assert b[start + size..] == c[size..];
  }

  // ----- the whole buffer is the value -----

  lemma {:induction false} EndReads(v: Value)
    requires EndFormed(v)
    ensures ReadAny(Encode(v)) == Done(v, |Encode(v)|)
    decreases v, 1
  {
    hide ReadAny, Encode, ReadProperties, ReadElements, EncodeAll, EncodeElements, WellFormed;
    match v
    case StrictArray(n, es) =>
      ElementsEnd(es, n, []);
      assert [] + es == es;
      NoEnds(EncodeElements(es), Encode(v));
      StrictArrayShifts(n, es, 0);
    case _ =>
      RoundTrip(v, []);
      NoEnds(Encode(v), Encode(v));
  }

  lemma {:induction false} NoEnds(a: seq<byte>, b: seq<byte>)
    ensures a + Ends(0) == a && b + Ends(0) == b && b + [] == b
  {
  }

  lemma {:induction false} ElementsEnd(es: seq<Value>, n: int, elements: seq<Value>)
    requires |es| <= (if n > 0 then n else 0)
    requires es != [] ==> ElementsFormed(es[..|es| - 1]) && EndFormed(es[|es| - 1])
    ensures ReadElements(EncodeElements(es), n, elements) == Done(elements + es, |EncodeElements(es)|)
    decreases es, 1
  {
    hide Encode, ReadAny, WellFormed, EndFormed;
    var c := EncodeElements(es);
    if es == [] {
      assert elements + es == elements;
    } else {
      var e, rest := es[0], EncodeElements(es[1..]);
      assert c == Encode(e) + rest;
      assert elements + [e] + es[1..] == elements + es;
      if |es| == 1 {
        assert es[1..] == [] && rest == [] && c == Encode(e);
        EndReads(e);
        assert c[|Encode(e)|..] == [] && elements + [e] == elements + es;
      } else {
        assert es[..|es| - 1][0] == e && es[..|es| - 1][1..] == es[1..][..|es| - 2];
        assert es[1..][|es| - 2] == es[|es| - 1];
        RoundTrip(e, rest);
        assert c[|Encode(e)|..] == rest;
        ElementsEnd(es[1..], n - 1, elements + [e]);
      }
    }
  }

  /** Elements are only added. */
  lemma {:induction false} ElementsGrow(b: seq<byte>, n: int, elements: seq<Value>)
    requires ReadElements(b, n, elements).Done?
    ensures var r := ReadElements(b, n, elements);
            |r.value| >= |elements| && r.value[..|elements|] == elements && (n > 0 && b != [] ==> |r.value| > |elements|)
    decreases |b|
  {
    hide ReadAny;
    if n > 0 && b != [] {
      var v := ReadAny(b);
      var more := elements + [v.value];
      ElementsGrow(b[v.size..], n - 1, more);
      var r := ReadElements(b, n, elements);
      assert r.value[..|elements|] == r.value[..|more|][..|elements|] == elements;
    }
  }

  lemma {:induction false} OnlyEnd(v: Value)
    requires ReadAny(Encode(v)) == Done(v, |Encode(v)|)
    ensures EndFormed(v)
    decreases v, 1
  {
    hide ReadAny, Encode, ReadProperties, ReadElements, EncodeAll, EncodeElements, WellFormed, TableFormed, ListFormed;
    ReadsTail(Encode(v));
    NoEnds(Encode(v), Encode(v));
    match v
    case Object(ps) =>
      TableDistinct(ps);
      if !AllFormed(ps) {
        TableSwallows(ps, 0);
        ObjectShifts(ps, 0);
      }
      TableIs(ps, v);
    case EcmaArray(n, ps) =>
      TableDistinct(ps);
      if !AllFormed(ps) {
        TableSwallows(ps, 0);
        EcmaArrayShifts(n, ps, 0);
      }
      TableIs(ps, v);
    case StrictArray(n, es) =>
      NoEnds(EncodeElements(es), Encode(v));
      StrictArrayRest(n, es);
      assert [] + es == es;
      OnlyEndElements(es, n, []);
    case _ =>
  }

  lemma {:induction false} TableIs(ps: seq<Property>, v: Value)
    requires Distinct(ps) && AllFormed(ps) && (v == Object(ps) || (v.EcmaArray? && v.properties == ps))
    ensures WellFormed(v)
  {
  }

  lemma {:induction false} StrictArrayRest(n: int32, es: seq<Value>)
    requires ReadAny(Encode(StrictArray(n, es))) == Done(StrictArray(n, es), |Encode(StrictArray(n, es))|)
    ensures ReadElements(EncodeElements(es), n, []) == Done(es, |EncodeElements(es)|)
  {
    hide EncodeElements, ReadProperties, ReadElements, ReadText, Be32, Bytes32, ToInt32;
    var b := Encode(StrictArray(n, es));
    assert b[0] == STRICT_ARRAY && b[1..5] == Bytes32(n as int % TWO32);
    assert b[5..] == EncodeElements(es);
    SizeWord(n, b);
  }

  /** Of elements that take the whole rest, only the last may be cut short. */
  lemma {:induction false} OnlyEndElements(es: seq<Value>, n: int, elements: seq<Value>)
    requires ListFormed(es) && |es| <= (if n > 0 then n else 0)
    requires ReadElements(EncodeElements(es), n, elements) == Done(elements + es, |EncodeElements(es)|)
    ensures es != [] ==> ElementsFormed(es[..|es| - 1]) && EndFormed(es[|es| - 1])
    decreases es, 1
  {
    hide Encode, ReadAny, TailFormed, WellFormed;
    if es != [] {
      var c, e, rest := EncodeElements(es), es[0], EncodeElements(es[1..]);
      assert c == Encode(e) + rest;
      var v := ReadAny(c);
      if |es| == 1 {
        assert es[1..] == [] && rest == [] && c == Encode(e);
        ElementsGrow(c[v.size..], n - 1, elements + [v.value]);
        assert elements + es == elements + [e];
        assert (elements + [e])[|elements|] == e && (elements + [v.value])[|elements|] == v.value;
        OnlyEnd(e);
        assert es[|es| - 1] == e && es[..|es| - 1] == [];
      } else {
        FirstFormed(es);
        RoundTrip(e, rest);
        assert c[|Encode(e)|..] == rest;
        assert elements + [e] + es[1..] == elements + es;
        OnlyEndElements(es[1..], n - 1, elements + [e]);
        assert es[1..][|es| - 2] == es[|es| - 1];
      }
    }
  }

  /**
   A value, followed by anything or by nothing, is read back as itself with exactly its own bytes if and
   only if it is well formed, or, at the end of the buffer, well formed but for a strict array that is
   the last thing in it and announces more elements than it has.
   */
  lemma {:induction false} RoundTripExactly(v: Value, suffix: seq<byte>)
    ensures ReadAny(Encode(v) + suffix) == Done(v, |Encode(v)|) <==>
            if suffix == [] then EndFormed(v) else WellFormed(v)
  {
    hide ReadAny, Encode, WellFormed, EndFormed;
    if suffix != [] {
      RoundTripInside(v, suffix);
    } else {
      assert Encode(v) + suffix == Encode(v);
      if EndFormed(v) {
        EndReads(v);
      }
      if ReadAny(Encode(v)) == Done(v, |Encode(v)|) {
        OnlyEnd(v);
      }
    }
  }
}
