/** AMF0 values, their encoding, and what the reader makes of any bytes. */
module Amf0 {
  import opened Basics

  type Word8 = s: seq<byte> | |s| == 8 witness [0, 0, 0, 0, 0, 0, 0, 0]
  type Word2 = s: seq<byte> | |s| == 2 witness [0, 0]

  /** Numbers and dates are kept as the big-endian bytes of their 64 bits. */
  datatype Value =
    | Number(bits: Word8)
    | Boolean(flag: bool)
    | String(text: seq<byte>)
    | Object(properties: seq<Property>)
    | Null
    | Undefined
    | EcmaArray(size: int32, properties: seq<Property>)
    | StrictArray(size: int32, elements: seq<Value>)
    | Date(millis: Word8, zone: Word2)
    | ObjectEnd

  datatype Property = Property(key: seq<byte>, value: Value)

  const NUMBER := 0
  const BOOLEAN := 1
  const STRING := 2
  const OBJECT := 3
  const NULL := 5
  const UNDEFINED := 6
  const ECMA_ARRAY := 8
  const OBJECT_END := 9
  const STRICT_ARRAY := 10
  const DATE := 11

  const MAX_STRING := 0x7FFF

  // ----- writing -----

  /** A string and its length, which is a signed 16-bit field: nothing follows a length that is not positive. */
  function EncodeText(s: seq<byte>): seq<byte> {
    var n := ToInt16(|s|);
    Bytes16(|s| % 0x1_0000) + if n <= 0 then [] else s[..n]
  }

  const END: seq<byte> := [0, 0, OBJECT_END]

  function Encode(v: Value): seq<byte>
    decreases v
  {
    match v
    case Number(bits) => [NUMBER] + bits
    case Boolean(flag) => [BOOLEAN, if flag then 1 else 0]
    case String(text) => [STRING] + EncodeText(text)
    case Object(ps) => [OBJECT] + EncodeAll(ps) + END
    case Null => [NULL]
    case Undefined => [UNDEFINED]
    case EcmaArray(n, ps) => [ECMA_ARRAY] + Bytes32(n as int % 0x1_0000_0000) + EncodeAll(ps) + END
    case StrictArray(n, es) => [STRICT_ARRAY] + Bytes32(n as int % 0x1_0000_0000) + EncodeElements(es)
    case Date(millis, zone) => [DATE] + millis + zone
    case ObjectEnd => END
  }

  function EncodeAll(ps: seq<Property>): seq<byte>
    decreases ps
  {
    if ps == [] then [] else EncodeText(ps[0].key) + Encode(ps[0].value) + EncodeAll(ps[1..])
  }

  function EncodeElements(es: seq<Value>): seq<byte>
    decreases es
  {
    if es == [] then [] else Encode(es[0]) + EncodeElements(es[1..])
  }

  // ----- the key table -----

  /** The position of a key, or the number of properties. */
  function IndexOf(ps: seq<Property>, key: seq<byte>): (i: nat)
    ensures i <= |ps|
    ensures forall k :: 0 <= k < i ==> ps[k].key != key
    ensures i < |ps| ==> ps[i].key == key
  {
    if ps == [] then 0 else if ps[0].key == key then 0 else 1 + IndexOf(ps[1..], key)
  }

  /** The first property with the key goes; the new one comes last. */
  function With(ps: seq<Property>, key: seq<byte>, value: Value): seq<Property> {
    Without(ps, key) + [Property(key, value)]
  }

  function Without(ps: seq<Property>, key: seq<byte>): seq<Property> {
    var i := IndexOf(ps, key);
    if i < |ps| then ps[..i] + ps[i + 1..] else ps
  }

  predicate Distinct(ps: seq<Property>) {
    forall i, j :: 0 <= i < j < |ps| ==> ps[i].key != ps[j].key
  }

  // ----- reading -----

  /** What a reader returns: a value and the bytes it took, or an error. */
  datatype Read<+T> = Done(value: T, size: nat) | Failed

  /** The three bytes of the object end. */
  predicate AtEnd(b: seq<byte>) {
    |b| >= 3 && b[0] == 0 && b[1] == 0 && b[2] == OBJECT_END
  }

  function ReadText(b: seq<byte>): (r: Read<seq<byte>>)
    ensures r.Done? ==> 2 <= r.size <= |b|
  {
    if |b| < 2 then Failed
    else
      var n := ToInt16(Be16(b, 0));
      if n <= 0 then Done([], 2)
      else if |b| - 2 < n then Failed
      else Done(b[2..2 + n], 2 + n)
  }

  /** Reading makes progress and stays inside the buffer. */
  function ReadAny(b: seq<byte>): (r: Read<Value>)
    ensures r.Done? ==> 1 <= r.size <= |b|
    decreases |b|, 0
  {
    if AtEnd(b) then Done(ObjectEnd, 3)
    else if |b| < 1 then Failed
    else if b[0] == NUMBER then if |b| < 9 then Failed else Done(Number(b[1..9]), 9)
    else if b[0] == BOOLEAN then if |b| < 2 then Failed else Done(Boolean(b[1] != 0), 2)
    else if b[0] == STRING then
      var r := ReadText(b[1..]);
      if r.Failed? then Failed else Done(String(r.value), 1 + r.size)
    else if b[0] == OBJECT then
      var r := ReadProperties(b[1..], []);
      if r.Failed? then Failed else Done(Object(r.value), 1 + r.size)
    else if b[0] == NULL then Done(Null, 1)
    else if b[0] == UNDEFINED then Done(Undefined, 1)
    else if b[0] == ECMA_ARRAY then
      if |b| < 5 then Failed
      else
        var r := ReadProperties(b[5..], []);
        if r.Failed? then Failed else Done(EcmaArray(ToInt32(Be32(b, 1)), r.value), 5 + r.size)
    else if b[0] == STRICT_ARRAY then
      if |b| < 5 then Failed
      else
        var n := ToInt32(Be32(b, 1));
        var r := ReadElements(b[5..], n, []);
        if r.Failed? then Failed else Done(StrictArray(n, r.value), 5 + r.size)
    else if b[0] == DATE then if |b| < 11 then Failed else Done(Date(b[1..9], b[9..11]), 11)
    else Failed
  }

  /** Properties up to an object end or the end of the buffer, added to a table. */
  function ReadProperties(b: seq<byte>, table: seq<Property>): (r: Read<seq<Property>>)
    ensures r.Done? ==> r.size <= |b|
    decreases |b|, 1
  {
    if b == [] then Done(table, 0)
    else if AtEnd(b) then Done(table, 3)
    else
      var key := ReadText(b);
      if key.Failed? then Failed
      else
        var value := ReadAny(b[key.size..]);
        if value.Failed? then Failed
        else
          var n := key.size + value.size;
          var r := ReadProperties(b[n..], With(table, key.value, value.value));
          if r.Failed? then Failed else Done(r.value, n + r.size)
  }

  /** As many elements as announced, or up to the end of the buffer. */
  function ReadElements(b: seq<byte>, n: int, elements: seq<Value>): (r: Read<seq<Value>>)
    ensures r.Done? ==> r.size <= |b|
    decreases |b|, 1
  {
    if n <= 0 || b == [] then Done(elements, 0)
    else
      var v := ReadAny(b);
      if v.Failed? then Failed
      else
        var r := ReadElements(b[v.size..], n - 1, elements + [v.value]);
        if r.Failed? then Failed else Done(r.value, v.size + r.size)
  }

  // ----- sizes -----

  function TotalSize(v: Value): nat
    decreases v
  {
    match v
    case Number(_) => 1 + 8
    case Boolean(_) => 1 + 1
    case String(text) => 1 + (2 + |text|)
    case Object(ps) => 1 + SizeAll(ps) + 3
    case Null => 1
    case Undefined => 1
    case EcmaArray(_, ps) => 1 + 4 + SizeAll(ps) + 3
    case StrictArray(_, es) => 1 + 4 + SizeElements(es)
    case Date(_, _) => 1 + 8 + 2
    case ObjectEnd => 3
  }

  function SizeAll(ps: seq<Property>): nat
    decreases ps
  {
    if ps == [] then 0 else 2 + |ps[0].key| + TotalSize(ps[0].value) + SizeAll(ps[1..])
  }

  function SizeElements(es: seq<Value>): nat
    decreases es
  {
    if es == [] then 0 else TotalSize(es[0]) + SizeElements(es[1..])
  }

  /** Every string and key has a length that a signed 16-bit field can hold. */
  predicate Short(v: Value)
    decreases v
  {
    match v
    case String(text) => |text| <= MAX_STRING
    case Object(ps) => AllShort(ps)
    case EcmaArray(_, ps) => AllShort(ps)
    case StrictArray(_, es) => ElementsShort(es)
    case _ => true
  }

  predicate AllShort(ps: seq<Property>)
    decreases ps
  {
    ps != [] ==> |ps[0].key| <= MAX_STRING && Short(ps[0].value) && AllShort(ps[1..])
  }

  predicate ElementsShort(es: seq<Value>)
    decreases es
  {
    es != [] ==> Short(es[0]) && ElementsShort(es[1..])
  }

  // ----- what round-trips -----

  /**
   What the reader can give back: short strings, no number that starts like an object end, no key
   twice, and strict arrays whose announced size is their number of elements.
   */
  predicate WellFormed(v: Value)
    decreases v
  {
    match v
    case Number(bits) => !(bits[0] == 0 && bits[1] == OBJECT_END)
    case String(text) => |text| <= MAX_STRING
    case Object(ps) => Distinct(ps) && AllFormed(ps)
    case EcmaArray(_, ps) => Distinct(ps) && AllFormed(ps)
    case StrictArray(n, es) => |es| == (if n > 0 then n as int else 0) && ElementsFormed(es)
    case _ => true
  }

  predicate AllFormed(ps: seq<Property>)
    decreases ps
  {
    ps != [] ==> |ps[0].key| <= MAX_STRING && WellFormed(ps[0].value) && AllFormed(ps[1..])
  }

  predicate ElementsFormed(es: seq<Value>)
    decreases es
  {
    es != [] ==> WellFormed(es[0]) && ElementsFormed(es[1..])
  }
}
