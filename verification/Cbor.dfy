/** A decoder for the definite-length items of RFC 8949, section 3. */
module Cbor {
  import opened Frames

  type byte = b: nat | b < 256

  /** What the decoder returns. A map is its items in insertion order. */
  datatype Value =
    | Int(i: int)
    | Bytes(bytes: seq<byte>)
    | Text(text: string)
    | Array(items: seq<Value>)
    | Map(pairs: seq<(Value, Value)>)
    | Bool(b: bool)
    | Null

  datatype Error = IndexError | ValueError | UnicodeError | TypeError

  /** A decoded item and the offset past it, which may lie beyond truncated data. */
  datatype Result<+T> = Ok(value: T, next: nat) | Err(error: Error)

  /** Decoding of UTF-8, None where it is malformed. */
  type Utf8 = seq<byte> -> Option<string>

  function BigEndian(s: seq<byte>): nat {
    if s == [] then 0 else BigEndian(s[..|s| - 1]) * 256 + s[|s| - 1]
  }

  /** `data[from:to]`: what there is of it. */
  function Slice(data: seq<byte>, from: nat, to: nat): seq<byte>
    requires from <= to
  {
    if to <= |data| then data[from..to]
    else if from <= |data| then data[from..]
    else []
  }

  datatype Head = Head(major: nat, arg: nat)

  /** The initial byte and its argument. */
  function ReadHead(data: seq<byte>, offset: nat): (r: Result<Head>)
    ensures r.Ok? ==> offset < |data| && r.next > offset && r.value.major < 8
  {
    if offset >= |data| then Err(IndexError)
    else
      var major, info := data[offset] / 32, data[offset] % 32;
      if info < 24 then Ok(Head(major, info), offset + 1)
      else if info < 28 then
        var size := Size(info);
        Ok(Head(major, BigEndian(Slice(data, offset + 1, offset + 1 + size))), offset + 1 + size)
      else Err(ValueError)
  }

  /** How many bytes the argument takes, by additional information: 1, 2, 4 or 8. */
  function Size(info: nat): nat {
    if info == 24 then 1 else if info == 25 then 2 else if info == 26 then 4 else 8
  }

  // ----- dictionaries -----

  predicate Hashable(v: Value) {
    !v.Array? && !v.Map?
  }

  function Number(v: Value): Option<int> {
    match v
    case Int(i) => Some(i)
    case Bool(b) => Some(if b then 1 else 0)
    case _ => None
  }

  /** Equal as dictionary keys: true and false equal the numbers 1 and 0. */
  predicate SameKey(a: Value, b: Value) {
    if Number(a).Some? then Number(a) == Number(b) else a == b
  }

  /** Assigning to a key: a key that is there keeps its place and its first form. */
  function Put(d: seq<(Value, Value)>, key: Value, value: Value): seq<(Value, Value)> {
    if d == [] then [(key, value)]
    else if SameKey(d[0].0, key) then [(d[0].0, value)] + d[1..]
    else [d[0]] + Put(d[1..], key, value)
  }

  // ----- decoding -----

  function Left(data: seq<byte>, offset: nat): nat {
    if offset < |data| then |data| - offset else 0
  }

  function Simple(arg: nat): Value {
    if arg == 20 then Bool(false) else if arg == 21 then Bool(true) else Null
  }

  function Decode(utf8: Utf8, data: seq<byte>, offset: nat): (r: Result<Value>)
    ensures r.Ok? ==> offset < |data| && r.next > offset
    decreases Left(data, offset), 0, 0
  {
    var head := ReadHead(data, offset);
    if head.Err? then Err(head.error)
    else DecodeBody(utf8, data, head.next, head.value.major, head.value.arg)
  }

  /** What follows a head. */
  function DecodeBody(utf8: Utf8, data: seq<byte>, next: nat, major: nat, arg: nat): (r: Result<Value>)
    ensures r.Ok? ==> r.next >= next
    decreases Left(data, next), 2, 0
  {
    if major == 0 then Ok(Int(arg), next)
    else if major == 1 then Ok(Int(-1 - arg), next)
    else if major == 2 then Ok(Bytes(Slice(data, next, next + arg)), next + arg)
    else if major == 3 then
      var text := utf8(Slice(data, next, next + arg));
      if text.Some? then Ok(Text(text.value), next + arg) else Err(UnicodeError)
    else if major == 4 then
      var items := DecodeItems(utf8, data, next, arg, []);
      if items.Ok? then Ok(Array(items.value), items.next) else Err(items.error)
    else if major == 5 then
      var pairs := DecodePairs(utf8, data, next, arg, []);
      if pairs.Ok? then Ok(Map(pairs.value), pairs.next) else Err(pairs.error)
    else if major == 7 then Ok(Simple(arg), next)
    else Err(ValueError)
  }

  /** The next n items, after those in `items`. */
  function DecodeItems(utf8: Utf8, data: seq<byte>, offset: nat, n: nat, items: seq<Value>): (r: Result<seq<Value>>)
    ensures r.Ok? ==> r.next >= offset
    decreases Left(data, offset), 1, n
  {
    if n == 0 then Ok(items, offset)
    else
      var item := Decode(utf8, data, offset);
      if item.Err? then Err(item.error)
      else DecodeItems(utf8, data, item.next, n - 1, items + [item.value])
  }

  /** The next n pairs, put into `d`. */
  function DecodePairs(utf8: Utf8, data: seq<byte>, offset: nat, n: nat, d: seq<(Value, Value)>):
      (r: Result<seq<(Value, Value)>>)
    ensures r.Ok? ==> r.next >= offset
    decreases Left(data, offset), 1, n
  {
    if n == 0 then Ok(d, offset)
    else
      var key := Decode(utf8, data, offset);
      if key.Err? then Err(key.error) else DecodeValue(utf8, data, key.next, n - 1, d, key.value)
  }

  /** The value of a key and the n pairs after it. The value is decoded before the key
      is used. */
  function DecodeValue(utf8: Utf8, data: seq<byte>, offset: nat, n: nat, d: seq<(Value, Value)>, key: Value):
      (r: Result<seq<(Value, Value)>>)
    ensures r.Ok? ==> r.next >= offset
    decreases Left(data, offset), 1, n
  {
    var value := Decode(utf8, data, offset);
    if value.Err? then Err(value.error)
    else if !Hashable(key) then Err(TypeError)
    else DecodePairs(utf8, data, value.next, n, Put(d, key, value.value))
  }

  /** The decoder as it is written, with its loops. */
  method CborDecode(utf8: Utf8, data: seq<byte>, offset: nat) returns (r: Result<Value>)
    ensures r == Decode(utf8, data, offset)
    decreases Left(data, offset), 0
  {
    var head := ReadHead(data, offset);
    if head.Err? {
      return Err(head.error);
    }
    var Head(major, arg) := head.value;
    var next := head.next;
    match major
    case 0 => return Ok(Int(arg), next);
    case 1 => return Ok(Int(-1 - arg), next);
    case 2 => return Ok(Bytes(Slice(data, next, next + arg)), next + arg);
    case 3 =>
      var text := utf8(Slice(data, next, next + arg));
      return if text.Some? then Ok(Text(text.value), next + arg) else Err(UnicodeError);
    case 4 =>
      var items := CborItems(utf8, data, next, arg);
      return if items.Ok? then Ok(Array(items.value), items.next) else Err(items.error);
    case 5 =>
      var pairs := CborPairs(utf8, data, next, arg);
      return if pairs.Ok? then Ok(Map(pairs.value), pairs.next) else Err(pairs.error);
    case 7 => return Ok(Simple(arg), next);
    case _ => return Err(ValueError);
  }

  /** The loop over an array's items. */
  method CborItems(utf8: Utf8, data: seq<byte>, offset: nat, n: nat) returns (r: Result<seq<Value>>)
    ensures r == DecodeItems(utf8, data, offset, n, [])
    decreases Left(data, offset), 1
  {
    var items, next := [], offset;
    for i := 0 to n
      invariant next >= offset
      invariant DecodeItems(utf8, data, offset, n, []) == DecodeItems(utf8, data, next, n - i, items)
    {
      var item := CborDecode(utf8, data, next);
      if item.Err? {
        return Err(item.error);
      }
      items, next := items + [item.value], item.next;
    }
    return Ok(items, next);
  }

  /** The loop over a map's pairs. */
  method CborPairs(utf8: Utf8, data: seq<byte>, offset: nat, n: nat) returns (r: Result<seq<(Value, Value)>>)
    ensures r == DecodePairs(utf8, data, offset, n, [])
    decreases Left(data, offset), 1
  {
    var d, next := [], offset;
    for i := 0 to n
      invariant next >= offset
      invariant DecodePairs(utf8, data, offset, n, []) == DecodePairs(utf8, data, next, n - i, d)
    {
      var key := CborDecode(utf8, data, next);
      if key.Err? {
        return Err(key.error);
      }
      var value := CborDecode(utf8, data, key.next);
      if value.Err? {
        return Err(value.error);
      }
      if !Hashable(key.value) {
        return Err(TypeError);
      }
      d, next := Put(d, key.value, value.value), value.next;
    }
    return Ok(d, next);
  }
}
