/** The AMF0 readers, writers, sizes and copies as they run: over buffers, with a table for the keys. */
module Amf0Codec {
  import opened Basics
  import opened Amf0
  import opened Amf0Laws

  // ----- the key table -----

  /** The value of the first property with the key. */
  function Lookup(ps: seq<Property>, key: seq<byte>): Option<Value> {
    var i := IndexOf(ps, key);
    if i < |ps| then Some(ps[i].value) else None
  }

  /** All properties with the key go. */
  function Dropped(ps: seq<Property>, key: seq<byte>): seq<Property> {
    if ps == [] then []
    else Dropped(ps[..|ps| - 1], key) + if ps[|ps| - 1].key == key then [] else [ps[|ps| - 1]]
  }

  /** The first position of a key is its only first position. */
  lemma {:induction false} IndexIs(ps: seq<Property>, key: seq<byte>, i: nat)
    requires i <= |ps| && (forall k :: 0 <= k < i ==> ps[k].key != key) && (i < |ps| ==> ps[i].key == key)
    ensures IndexOf(ps, key) == i
  {
  }

  lemma {:induction false} WithAt(ps: seq<Property>, key: seq<byte>, value: Value, k: nat)
    ensures var i, r := IndexOf(ps, key), With(ps, key, value);
            && |r| == (if i < |ps| then |ps| else |ps| + 1) && r[|r| - 1] == Property(key, value)
            && (k < |r| - 1 ==> r[k] == if k < i then ps[k] else ps[k + 1])
  {
    hide IndexOf;
  }

  lemma {:induction false} WithIndexSet(ps: seq<Property>, key: seq<byte>, value: Value)
    requires Distinct(ps)
    ensures IndexOf(With(ps, key, value), key) == |With(ps, key, value)| - 1
  {
    var i := IndexOf(ps, key);
    var r := With(ps, key, value);
    WithAt(ps, key, value, 0);
    hide With, IndexOf;
    forall k | 0 <= k < |r| - 1 ensures r[k].key != key {
      WithAt(ps, key, value, k);
    }
    IndexIs(r, key, |r| - 1);
  }

  lemma {:induction false} WithIndexOther(ps: seq<Property>, key: seq<byte>, value: Value, other: seq<byte>)
    requires other != key
    ensures var i, j, r := IndexOf(ps, key), IndexOf(ps, other), With(ps, key, value);
            IndexOf(r, other) == if j < i then (if j < |ps| then j else |r|) else if j < |ps| then j - 1 else |r|
  {
    var i, j := IndexOf(ps, key), IndexOf(ps, other);
    var r := With(ps, key, value);
    WithAt(ps, key, value, 0);
    hide With, IndexOf;
    var j' := if j < i then j else if j < |ps| then j - 1 else |r|;
    forall k | 0 <= k < j' ensures r[k].key != other {
      WithAt(ps, key, value, k);
    }
    if j < |ps| {
      WithAt(ps, key, value, j');
    }
    IndexIs(r, other, j');
  }

  /** What is set is found; all other keys keep their values. */
  lemma {:induction false} WithLookup(ps: seq<Property>, key: seq<byte>, value: Value, other: seq<byte>)
    requires Distinct(ps)
    ensures Lookup(With(ps, key, value), other) == if other == key then Some(value) else Lookup(ps, other)
  {
    hide With, Distinct, IndexOf;
    WithAt(ps, key, value, 0);
    if other == key {
      WithIndexSet(ps, key, value);
    } else {
      WithIndexOther(ps, key, value, other);
      var j := IndexOf(With(ps, key, value), other);
      WithAt(ps, key, value, j);
    }
  }

  lemma {:induction false} WithoutSnoc(ps: seq<Property>, p: Property, key: seq<byte>)
    ensures var i := IndexOf(ps, key);
            Without(ps + [p], key) == if i < |ps| then Without(ps, key) + [p] else if p.key == key then ps else ps + [p]
  {
    hide IndexOf;
    var i := IndexOf(ps, key);
    var qs := ps + [p];
    assert forall k :: 0 <= k < |ps| ==> qs[k] == ps[k];
    if i < |ps| {
      IndexIs(qs, key, i);
      assert qs[..i] + qs[i + 1..] == ps[..i] + ps[i + 1..] + [p];
    } else if p.key == key {
      IndexIs(qs, key, |ps|);
      assert qs[..|ps|] + qs[|ps| + 1..] == ps;
    } else {
      IndexIs(qs, key, |qs|);
    }
  }

  /** With distinct keys, dropping all properties with a key drops the first one. */
  lemma {:induction false} DroppedFirst(ps: seq<Property>, key: seq<byte>)
    requires Distinct(ps)
    ensures Dropped(ps, key) == Without(ps, key)
    decreases |ps|
  {
    if ps != [] {
      var l := |ps| - 1;
      var init := ps[..l];
      assert ps == init + [ps[l]];
      DroppedFirst(init, key);
      hide IndexOf, Dropped, Distinct;
      WithoutSnoc(init, ps[l], key);
      if IndexOf(init, key) < l {
        OnlyOnce(ps, key);
      }
      DroppedSnoc(ps, key);
      if IndexOf(init, key) == l {
        NotIn(init, key);
      }
    }
  }

  lemma {:induction false} DroppedSnoc(ps: seq<Property>, key: seq<byte>)
    requires ps != []
    ensures Dropped(ps, key) == Dropped(ps[..|ps| - 1], key) + if ps[|ps| - 1].key == key then [] else [ps[|ps| - 1]]
  {
  }

  lemma {:induction false} NotIn(ps: seq<Property>, key: seq<byte>)
    requires IndexOf(ps, key) == |ps|
    ensures Without(ps, key) == ps
  {
  }

  lemma {:induction false} OnlyOnce(ps: seq<Property>, key: seq<byte>)
    requires Distinct(ps) && ps != [] && IndexOf(ps[..|ps| - 1], key) < |ps| - 1
    ensures ps[|ps| - 1].key != key
  {
    var init := ps[..|ps| - 1];
    assert init[IndexOf(init, key)] == ps[IndexOf(init, key)];
  }

  class UnSortedHashtable {
    var properties: seq<Property>

    constructor ()
      ensures properties == []
    {
      properties := [];
    }

    /** No value means that the key is only removed. */
    method Set(key: seq<byte>, value: Option<Value>)
      modifies this
      ensures properties ==
              if value.None? then Without(old(properties), key) else With(old(properties), key, value.value)
    {
      var i := 0;
      while i < |properties|
        invariant i <= |properties| && properties == old(properties)
        invariant forall k :: 0 <= k < i ==> properties[k].key != key
      {
        if properties[i].key == key {
          properties := properties[..i] + properties[i + 1..];
          break;
        }
        i := i + 1;
      }
      if value.Some? {
        properties := properties + [Property(key, value.value)];
      }
    }

    method GetProperty(key: seq<byte>) returns (value: Option<Value>)
      ensures value == Lookup(properties, key)
    {
      var i := 0;
      while i < |properties|
        invariant i <= |properties|
        invariant forall k :: 0 <= k < i ==> properties[k].key != key
      {
        if properties[i].key == key {
          return Some(properties[i].value);
        }
        i := i + 1;
      }
      return None;
    }

    method Remove(key: seq<byte>)
      modifies this
      ensures properties == Dropped(old(properties), key)
    {
      var i := 0;
      ghost var j := 0;
      while i < |properties|
        invariant i <= |properties| && j <= |old(properties)|
        invariant properties[i..] == old(properties)[j..]
        invariant properties[..i] == Dropped(old(properties)[..j], key)
        decreases |old(properties)| - j
      {
        assert properties[i] == properties[i..][0] == old(properties)[j];
        assert old(properties)[..j + 1][..j] == old(properties)[..j];
        if properties[i].key == key {
          assert (properties[..i] + properties[i + 1..])[..i] == properties[..i];
          assert (properties[..i] + properties[i + 1..])[i..] == properties[i + 1..] == properties[i..][1..];
          properties := properties[..i] + properties[i + 1..];
        } else {
          assert properties[..i + 1] == properties[..i] + [properties[i]];
          assert properties[i + 1..] == properties[i..][1..];
          i := i + 1;
        }
        j := j + 1;
      }
      assert j == |old(properties)| by {
        assert properties[i..] == [];
      }
      assert old(properties)[..j] == old(properties) && properties[..i] == properties;
    }

    /** Copies of the values of another table, set one after the other. */
    method CopyFrom(source: seq<Property>)
      modifies this
      ensures properties == CopyInto(old(properties), source)
      decreases source, 0
    {
      hide With, Copy;
      var i := 0;
      while i < |source|
        invariant i <= |source|
        invariant CopyInto(properties, source[i..]) == CopyInto(old(properties), source)
      {
        var value := CopyOf(source[i].value);
        assert source[i..][0] == source[i] && source[i..][1..] == source[i + 1..];
        Set(source[i].key, Some(value));
        i := i + 1;
      }
    }
  }

  // ----- copies and sizes -----

  method CopyOf(v: Value) returns (r: Value)
    ensures r == Copy(v)
    decreases v
  {
    hide CopyInto;
    match v {
      case String(text) =>
        var s := UpToZero(text);
        return String(s);
      case Object(ps) =>
        var table := new UnSortedHashtable();
        table.CopyFrom(ps);
        return Object(table.properties);
      case EcmaArray(n, ps) =>
        var table := new UnSortedHashtable();
        table.CopyFrom(ps);
        return EcmaArray(n, table.properties);
      case StrictArray(n, es) =>
        var copies: seq<Value> := [];
        var i := 0;
        while i < |es|
          invariant i <= |es|
          invariant copies + CopyElements(es[i..]) == CopyElements(es)
        {
          var e := CopyOf(es[i]);
          assert es[i..][0] == es[i] && es[i..][1..] == es[i + 1..];
          assert copies + CopyElements(es[i..]) == copies + [e] + CopyElements(es[i + 1..]);
          copies := copies + [e];
          i := i + 1;
        }
        assert es[i..] == [] && copies + [] == copies;
        return StrictArray(n, copies);
      case _ =>
        return v;
    }
  }

  method UpToZero(s: seq<byte>) returns (r: seq<byte>)
    ensures r == CString(s)
  {
    var i := 0;
    while i < |s| && s[i] != 0
      invariant i <= |s|
      invariant CString(s) == s[..i] + CString(s[i..])
    {
      assert s[i..][1..] == s[i + 1..];
      assert s[..i] + ([s[i]] + CString(s[i + 1..])) == s[..i + 1] + CString(s[i + 1..]);
      i := i + 1;
    }
    assert s[..i] + [] == s[..i];
    return s[..i];
  }

  method ComputeSize(v: Value) returns (size: nat)
    ensures size == TotalSize(v)
    decreases v
  {
    match v {
      case Number(_) => size := 1 + 8;
      case Boolean(_) => size := 1 + 1;
      case String(text) => size := 1 + (2 + |text|);
      case Object(ps) =>
        var n := PropertiesSize(ps);
        size := 1 + n + 3;
      case Null => size := 1;
      case Undefined => size := 1;
      case EcmaArray(_, ps) =>
        var n := PropertiesSize(ps);
        size := 1 + 4 + n + 3;
      case StrictArray(_, es) =>
        size := 1 + 4;
        var i := 0;
        while i < |es|
          invariant i <= |es|
          invariant size + SizeElements(es[i..]) == TotalSize(v)
        {
          var n := ComputeSize(es[i]);
          assert es[i..][0] == es[i] && es[i..][1..] == es[i + 1..];
          size := size + n;
          i := i + 1;
        }
      case Date(_, _) => size := 1 + 8 + 2;
      case ObjectEnd => size := 3;
    }
  }

  method PropertiesSize(ps: seq<Property>) returns (size: nat)
    ensures size == SizeAll(ps)
    decreases ps, 0
  {
    hide TotalSize;
    size := 0;
    var i := 0;
    while i < |ps|
      invariant i <= |ps|
      invariant size + SizeAll(ps[i..]) == SizeAll(ps)
    {
      var n := ComputeSize(ps[i].value);
      assert ps[i..][0] == ps[i] && ps[i..][1..] == ps[i + 1..];
      size := size + (2 + |ps[i].key|) + n;
      i := i + 1;
    }
  }

  // ----- reading -----

  method DecodeText(data: array<byte>, start: nat, end: nat) returns (r: Read<seq<byte>>)
    requires start <= end <= data.Length
    ensures r == ReadText(data[start..end])
  {
    ghost var b := data[start..end];
    if end - start < 2 {
      return Failed;
    }
    assert b[0] == data[start] && b[1] == data[start + 1];
    var length := ToInt16(data[start] as int * 0x100 + data[start + 1] as int);
    if length <= 0 {
      return Done([], 2);
    }
    if end - start - 2 < length {
      return Failed;
    }
    SliceOfSlice(data[..], start, end, 2, 2 + length);
    return Done(data[start + 2..start + 2 + length], 2 + length);
  }

  function Shift<T>(r: Read<T>, n: nat): Read<T> {
    if r.Failed? then Failed else Done(r.value, n + r.size)
  }

  lemma {:induction false} SliceOn(data: array<byte>, start: nat, mid: nat, end: nat)
    requires start <= mid <= end <= data.Length
    ensures data[start..end][mid - start..] == data[mid..end]
  {
  }

  method IsEnd(data: array<byte>, start: nat, end: nat) returns (r: bool)
    requires start <= end <= data.Length
    ensures r == AtEnd(data[start..end])
  {
    r := end - start >= 3 && data[start] as int * 0x1_0000 + data[start + 1] as int * 0x100 + data[start + 2] as int == 0x09;
  }

  /** A key and its value, set in the table; the bytes they took, or nothing on an error. */
  method DecodeProperty(data: array<byte>, start: nat, end: nat, table: UnSortedHashtable) returns (n: Option<nat>)
    requires start < end <= data.Length
    modifies table
    ensures n.Some? ==> 0 < n.value <= end - start
    ensures var b := data[start..end];
            var key := ReadText(b);
            if key.Failed? then n.None?
            else
              var value := ReadAny(b[key.size..]);
              if value.Failed? then n.None?
              else n == Some(key.size + value.size) && table.properties == With(old(table.properties), key.value, value.value)
    decreases end - start, 1
  {
    hide With, ReadAny, ReadText;
    var key := DecodeText(data, start, end);
    if key.Failed? {
      return None;
    }
    SliceOn(data, start, start + key.size, end);
    var value := DecodeAny(data, start + key.size, end);
    if value.Failed? {
      return None;
    }
    table.Set(key.value, Some(value.value));
    return Some(key.size + value.size);
  }

  /** One turn of the reference reading. */
  lemma {:induction false} ReadStep(b: seq<byte>, table: seq<Property>)
    requires b != []
    ensures var key := ReadText(b);
            ReadProperties(b, table) ==
            if AtEnd(b) then Done(table, 3)
            else if key.Failed? then Failed
            else
              var value := ReadAny(b[key.size..]);
              if value.Failed? then Failed
              else
                var n := key.size + value.size;
                Shift(ReadProperties(b[n..], With(table, key.value, value.value)), n)
  {
    hide With, ReadAny, ReadText, AtEnd;
  }

  lemma {:induction false} ReadNothing(table: seq<Property>)
    ensures ReadProperties([], table) == Done(table, 0)
  {
  }

  method DecodeProperties(data: array<byte>, start: nat, end: nat, table: UnSortedHashtable) returns (r: Option<nat>)
    requires start <= end <= data.Length
    modifies table
    ensures var s := ReadProperties(data[start..end], old(table.properties));
            if s.Failed? then r.None? else r == Some(s.size) && table.properties == s.value
    decreases end - start, 2
  {
    hide With, ReadAny, ReadText, ReadProperties, AtEnd;
    var offset := start;
    while offset < end
      invariant start <= offset <= end
      invariant ReadProperties(data[start..end], old(table.properties)) ==
                Shift(ReadProperties(data[offset..end], table.properties), offset - start)
    {
      ReadStep(data[offset..end], table.properties);
      var last := IsEnd(data, offset, end);
      if last {
        return Some(offset + 3 - start);
      }
      var n := DecodeProperty(data, offset, end, table);
      if n.None? {
        return None;
      }
      SliceOn(data, offset, offset + n.value, end);
      offset := offset + n.value;
    }
    ReadNothing(table.properties);
    assert data[offset..end] == [];
    return Some(offset - start);
  }

  method DecodeElements(data: array<byte>, start: nat, end: nat, count: int) returns (r: Read<seq<Value>>)
    requires start <= end <= data.Length
    ensures r == ReadElements(data[start..end], count, [])
    decreases end - start, 1
  {
    hide ReadAny;
    var offset := start;
    var elements: seq<Value> := [];
    var i := 0;
    while i < count && offset < end
      invariant start <= offset <= end && i >= 0
      invariant ReadElements(data[start..end], count, []) ==
                Shift(ReadElements(data[offset..end], count - i, elements), offset - start)
    {
      var v := DecodeAny(data, offset, end);
      if v.Failed? {
        return Failed;
      }
      SliceOn(data, offset, offset + v.size, end);
      offset := offset + v.size;
      elements := elements + [v.value];
      i := i + 1;
    }
    return Done(elements, offset - start);
  }

  /** Finds the kind of value by its marker and reads it. */
  method DecodeAny(data: array<byte>, start: nat, end: nat) returns (r: Read<Value>)
    requires start <= end <= data.Length
    ensures r == ReadAny(data[start..end])
    decreases end - start, 0
  {
    hide ReadProperties, ReadElements, ReadText;
    ghost var b := data[start..end];
    var last := IsEnd(data, start, end);
    if last {
      return Done(ObjectEnd, 3);
    }
    var len := end - start;
    if len < 1 {
      return Failed;
    }
    assert b[0] == data[start];
    if data[start] == STRING {
      SliceOn(data, start, start + 1, end);
      var s := DecodeText(data, start + 1, end);
      return if s.Failed? then Failed else Done(String(s.value), 1 + s.size);
    } else if data[start] == BOOLEAN {
      return if len < 2 then Failed else Done(Boolean(data[start + 1] != 0), 2);
    } else if data[start] == NUMBER {
      if len < 9 {
        return Failed;
      }
      SliceOfSlice(data[..], start, end, 1, 9);
      return Done(Number(data[start + 1..start + 9]), 9);
    } else if data[start] == NULL {
      return Done(Null, 1);
    } else if data[start] == UNDEFINED {
      return Done(Undefined, 1);
    } else if data[start] == OBJECT {
      SliceOn(data, start, start + 1, end);
      var table := new UnSortedHashtable();
      var n := DecodeProperties(data, start + 1, end, table);
      return if n.None? then Failed else Done(Object(table.properties), 1 + n.value);
    } else if data[start] == ECMA_ARRAY || data[start] == STRICT_ARRAY {
      if len < 5 {
        return Failed;
      }
      SliceOn(data, start, start + 5, end);
      SliceOfSlice(data[..], start, end, 1, 5);
      var count := DecodeCount(data, start + 1, b);
      if data[start] == ECMA_ARRAY {
        var table := new UnSortedHashtable();
        var n := DecodeProperties(data, start + 5, end, table);
        return if n.None? then Failed else Done(EcmaArray(count, table.properties), 5 + n.value);
      }
      var es := DecodeElements(data, start + 5, end, count);
      return if es.Failed? then Failed else Done(StrictArray(count, es.value), 5 + es.size);
    } else if data[start] == DATE {
      if len < 11 {
        return Failed;
      }
      SliceOfSlice(data[..], start, end, 1, 9);
      SliceOfSlice(data[..], start, end, 9, 11);
      return Done(Date(data[start + 1..start + 9], data[start + 9..start + 11]), 11);
    }
    return Failed;
  }

  method DecodeCount(data: array<byte>, at: nat, ghost b: seq<byte>) returns (count: int32)
    requires at + 4 <= data.Length && |b| >= 5 && b[1..5] == data[at..at + 4]
    ensures count == ToInt32(Be32(b, 1))
  {
    assert forall k :: 0 <= k < 4 ==> b[1 + k] == b[1..5][k] == data[at + k];
    count := ToInt32(data[at] as int * 0x100_0000 + data[at + 1] as int * 0x1_0000
                     + data[at + 2] as int * 0x100 + data[at + 3] as int);
  }
}
