/** Encodings of the decoder's values as byte strings, and the proof that the decoder
    accepts these and nothing else, with the value they stand for. */
module CborEncodings {
  import opened Frames
  import opened Cbor

  /** The argument of a head: in the initial byte, or in 1, 2, 4 or 8 bytes after it,
      which need not be the fewest. */
  datatype Arg = Short(n: nat) | Long(bytes: seq<byte>)

  datatype Enc =
    | EUint(arg: Arg)
    | ENint(arg: Arg)
    | EBytes(arg: Arg, bytes: seq<byte>)
    | EText(arg: Arg, utf8Bytes: seq<byte>)
    | EArray(arg: Arg, items: Encs)
    | EMap(arg: Arg, pairs: EncPairs)
    | ESimple(n: nat)        // false, true or null
    | EOther(arg: Arg)       // whatever else has major type 7: undefined, unassigned, floats

  datatype Encs = NoItem | Item(head: Enc, tail: Encs)
  datatype EncPairs = NoPair | Pair(key: Enc, value: Enc, rest: EncPairs)

  function Count(es: Encs): nat {
    if es.NoItem? then 0 else 1 + Count(es.tail)
  }

  function PairCount(ps: EncPairs): nat {
    if ps.NoPair? then 0 else 1 + PairCount(ps.rest)
  }

  function ArgValue(a: Arg): nat {
    match a
    case Short(n) => n
    case Long(bytes) => BigEndian(bytes)
  }

  predicate ValidArg(a: Arg) {
    match a
    case Short(n) => n < 24
    case Long(bytes) => |bytes| == 1 || |bytes| == 2 || |bytes| == 4 || |bytes| == 8
  }

  /** The argument is written properly and is n. */
  predicate Says(a: Arg, n: nat) { ValidArg(a) && ArgValue(a) == n }

  function HeadBytes(major: nat, a: Arg): seq<byte> {
    match a
    case Short(n) => [Initial(major, n)]
    case Long(bytes) => [Initial(major, Info(|bytes|))] + bytes
  }

  function Info(size: nat): nat {
    if size == 1 then 24 else if size == 2 then 25 else if size == 4 then 26 else 27
  }

  /** The initial byte: three bits of major type, five of additional information. */
  function Initial(major: nat, info: nat): (b: byte)
    ensures major < 8 && info < 32 ==> b / 32 == major && b % 32 == info
  {
    (major * 32 + info) % 256
  }

  /** Arguments say what they should, text is UTF-8, keys can be dictionary keys. */
  predicate Readable(utf8: Utf8, e: Enc) {
    match e
    case EUint(a) => ValidArg(a)
    case ENint(a) => ValidArg(a)
    case EBytes(a, s) => Says(a, |s|)
    case EText(a, s) => Says(a, |s|) && utf8(s).Some?
    case EArray(a, items) => Says(a, Count(items)) && AllReadable(utf8, items)
    case EMap(a, pairs) => Says(a, PairCount(pairs)) && PairsReadable(utf8, pairs)
    case ESimple(n) => IsSimple(n)
    case EOther(a) => ValidArg(a) && !(a.Short? && IsSimple(a.n))
  }

  predicate AllReadable(utf8: Utf8, es: Encs) {
    es.Item? ==> Readable(utf8, es.head) && AllReadable(utf8, es.tail)
  }

  predicate PairsReadable(utf8: Utf8, ps: EncPairs) {
    ps.Pair? ==>
      && Readable(utf8, ps.key) && Readable(utf8, ps.value)
      && !ps.key.EArray? && !ps.key.EMap? && PairsReadable(utf8, ps.rest)
  }

  /** The additional information of false, true and null. */
  predicate IsSimple(n: nat) { n == 20 || n == 21 || n == 22 }

  /** Nothing but the supported subset occurs in the item. */
  predicate Exact(e: Enc) {
    match e
    case EArray(_, items) => AllExact(items)
    case EMap(_, pairs) => PairsExact(pairs)
    case EOther(_) => false
    case _ => true
  }

  predicate AllExact(es: Encs) {
    es.Item? ==> Exact(es.head) && AllExact(es.tail)
  }

  predicate PairsExact(ps: EncPairs) {
    ps.Pair? ==> Exact(ps.key) && Exact(ps.value) && PairsExact(ps.rest)
  }

  /** An encoding of a value of the supported subset. */
  predicate WellFormed(utf8: Utf8, e: Enc) {
    Readable(utf8, e) && Exact(e)
  }

  function Encoding(e: Enc): seq<byte> {
    match e
    case EUint(a) => HeadBytes(0, a)
    case ENint(a) => HeadBytes(1, a)
    case EBytes(a, s) => HeadBytes(2, a) + s
    case EText(a, s) => HeadBytes(3, a) + s
    case EArray(a, items) => HeadBytes(4, a) + EncodingAll(items)
    case EMap(a, pairs) => HeadBytes(5, a) + EncodingPairs(pairs)
    case ESimple(n) => HeadBytes(7, Short(n))
    case EOther(a) => HeadBytes(7, a)
  }

  function EncodingAll(es: Encs): seq<byte> {
    if es.NoItem? then [] else Encoding(es.head) + EncodingAll(es.tail)
  }

  function EncodingPairs(ps: EncPairs): seq<byte> {
    if ps.NoPair? then [] else Encoding(ps.key) + (Encoding(ps.value) + EncodingPairs(ps.rest))
  }

  /** The value that is read from an encoding. For a well-formed one it is the value it
      stands for. */
  function Meaning(utf8: Utf8, e: Enc): Value
    decreases e
  {
    match e
    case EUint(a) => Int(ArgValue(a))
    case ENint(a) => Int(-1 - ArgValue(a))
    case EBytes(_, s) => Bytes(s)
    case EText(_, s) => if utf8(s).Some? then Text(utf8(s).value) else Null
    case EArray(_, items) => Array(Meanings(utf8, items))
    case EMap(_, pairs) => Map(Entries(utf8, [], pairs))
    case ESimple(n) => Simple(n)
    case EOther(a) => Simple(ArgValue(a))
  }

  function Meanings(utf8: Utf8, es: Encs): seq<Value>
    decreases es
  {
    if es.NoItem? then [] else [Meaning(utf8, es.head)] + Meanings(utf8, es.tail)
  }

  /** The pairs put into a dictionary, one after the other. */
  function Entries(utf8: Utf8, d: seq<(Value, Value)>, ps: EncPairs): seq<(Value, Value)>
    decreases ps
  {
    if ps.NoPair? then d
    else Entries(utf8, Put(d, Meaning(utf8, ps.key), Meaning(utf8, ps.value)), ps.rest)
  }

  // ----- heads -----

  /** `bytes` stand at the offset. */
  predicate At(data: seq<byte>, offset: nat, bytes: seq<byte>) {
    offset + |bytes| <= |data| && data[offset..offset + |bytes|] == bytes
  }

  lemma AtSplit(data: seq<byte>, offset: nat, a: seq<byte>, b: seq<byte>)
    ensures At(data, offset, a + b) <==> At(data, offset, a) && At(data, offset + |a|, b)
  {
    if At(data, offset, a + b) {
      assert a == (a + b)[..|a|] && b == (a + b)[|a|..];
    }
    if At(data, offset, a) && At(data, offset + |a|, b) {
      assert data[offset..offset + |a| + |b|] == data[offset..offset + |a|] + data[offset + |a|..offset + |a| + |b|];
    }
  }

  lemma HeadRead(data: seq<byte>, offset: nat, major: nat, a: Arg)
    requires major < 8 && ValidArg(a) && At(data, offset, HeadBytes(major, a))
    ensures ReadHead(data, offset) == Ok(Head(major, ArgValue(a)), offset + |HeadBytes(major, a)|)
  {
    var info := if a.Short? then a.n else Info(|a.bytes|);
    AtSplit(data, offset, [Initial(major, info)], if a.Short? then [] else a.bytes);
    assert data[offset..offset + 1][0] == Initial(major, info);
    if a.Long? {
      assert Size(info) == |a.bytes|;
      assert Slice(data, offset + 1, offset + 1 + |a.bytes|) == a.bytes;
    }
  }

  /** A head that is not cut off by the end of the data is one of the encodings. */
  lemma HeadFound(data: seq<byte>, offset: nat) returns (a: Arg)
    requires ReadHead(data, offset).Ok? && ReadHead(data, offset).next <= |data|
    ensures var r := ReadHead(data, offset);
            Says(a, r.value.arg) && At(data, offset, HeadBytes(r.value.major, a)) &&
            r.next == offset + |HeadBytes(r.value.major, a)|
  {
    var info := data[offset] % 32;
    if info < 24 {
      a := Short(info);
    } else {
      var size := Size(info);
      a := Long(data[offset + 1..offset + 1 + size]);
      AtSplit(data, offset, [data[offset]], a.bytes);
    }
  }

  // ----- decoding an encoding -----

  lemma DecodesScalar(utf8: Utf8, data: seq<byte>, offset: nat, e: Enc)
    requires Readable(utf8, e) && At(data, offset, Encoding(e)) && (e.EUint? || e.ENint? || e.ESimple? || e.EOther?)
    ensures Decode(utf8, data, offset) == Ok(Meaning(utf8, e), offset + |Encoding(e)|)
  {
    var arg := if e.ESimple? then Short(e.n) else e.arg;
    HeadRead(data, offset, if e.EUint? then 0 else if e.ENint? then 1 else 7, arg);
  }

  lemma SliceAt(data: seq<byte>, at: nat, s: seq<byte>)
    requires At(data, at, s)
    ensures Slice(data, at, at + |s|) == s
  {
  }

  lemma DecodesBytes(utf8: Utf8, data: seq<byte>, offset: nat, a: Arg, s: seq<byte>)
    requires Says(a, |s|) && At(data, offset, HeadBytes(2, a)) && At(data, offset + |HeadBytes(2, a)|, s)
    ensures Decode(utf8, data, offset) == Ok(Bytes(s), offset + |HeadBytes(2, a)| + |s|)
  {
    HeadRead(data, offset, 2, a);
    SliceAt(data, offset + |HeadBytes(2, a)|, s);
  }

  lemma DecodesText(utf8: Utf8, data: seq<byte>, offset: nat, a: Arg, s: seq<byte>)
    requires Says(a, |s|) && At(data, offset, HeadBytes(3, a)) && At(data, offset + |HeadBytes(3, a)|, s)
    requires utf8(s).Some?
    ensures Decode(utf8, data, offset) == Ok(Text(utf8(s).value), offset + |HeadBytes(3, a)| + |s|)
  {
    HeadRead(data, offset, 3, a);
    SliceAt(data, offset + |HeadBytes(3, a)|, s);
  }

  lemma DecodesArray(utf8: Utf8, data: seq<byte>, offset: nat, a: Arg, n: nat, values: seq<Value>, end: nat)
    requires Says(a, n) && At(data, offset, HeadBytes(4, a))
    requires DecodeItems(utf8, data, offset + |HeadBytes(4, a)|, n, []) == Ok(values, end)
    ensures Decode(utf8, data, offset) == Ok(Array(values), end)
  {
    HeadRead(data, offset, 4, a);
  }

  lemma DecodesMap(utf8: Utf8, data: seq<byte>, offset: nat, a: Arg, n: nat, d: seq<(Value, Value)>, end: nat)
    requires Says(a, n) && At(data, offset, HeadBytes(5, a))
    requires DecodePairs(utf8, data, offset + |HeadBytes(5, a)|, n, []) == Ok(d, end)
    ensures Decode(utf8, data, offset) == Ok(Map(d), end)
  {
    HeadRead(data, offset, 5, a);
  }

  lemma ItemsStep(utf8: Utf8, data: seq<byte>, offset: nat, n: nat, items: seq<Value>,
                  item: Value, next: nat, r: Result<seq<Value>>)
    requires n > 0 && Decode(utf8, data, offset) == Ok(item, next)
    requires DecodeItems(utf8, data, next, n - 1, items + [item]) == r
    ensures DecodeItems(utf8, data, offset, n, items) == r
  {
  }

  lemma ScalarKey(utf8: Utf8, e: Enc)
    ensures !e.EArray? && !e.EMap? <==> Hashable(Meaning(utf8, e))
  {
  }

  lemma PairsStep(utf8: Utf8, data: seq<byte>, offset: nat, n: nat, d: seq<(Value, Value)>,
                  key: Value, mid: nat, value: Value, next: nat, r: Result<seq<(Value, Value)>>)
    requires n > 0 && Hashable(key) && Decode(utf8, data, offset) == Ok(key, mid)
    requires Decode(utf8, data, mid) == Ok(value, next) && DecodePairs(utf8, data, next, n - 1, Put(d, key, value)) == r
    ensures DecodePairs(utf8, data, offset, n, d) == r
  {
    assert DecodeValue(utf8, data, mid, n - 1, d, key) == r;
  }

  lemma {:induction false} DecodesEncoding(utf8: Utf8, data: seq<byte>, offset: nat, e: Enc)
    requires Readable(utf8, e) && At(data, offset, Encoding(e))
    ensures Decode(utf8, data, offset) == Ok(Meaning(utf8, e), offset + |Encoding(e)|)
    decreases e, 0
  {
    match e
    case EBytes(a, s) =>
      AtSplit(data, offset, HeadBytes(2, a), s);
      DecodesBytes(utf8, data, offset, a, s);
    case EText(a, s) =>
      AtSplit(data, offset, HeadBytes(3, a), s);
      DecodesText(utf8, data, offset, a, s);
    case EArray(a, items) => DecodesEArray(utf8, data, offset, a, items);
    case EMap(a, pairs) => DecodesEMap(utf8, data, offset, a, pairs);
    case _ => DecodesScalar(utf8, data, offset, e);
  }

  lemma {:induction false} DecodesEArray(utf8: Utf8, data: seq<byte>, offset: nat, a: Arg, es: Encs)
    requires Says(a, Count(es)) && AllReadable(utf8, es)
    requires At(data, offset, HeadBytes(4, a) + EncodingAll(es))
    ensures Decode(utf8, data, offset) ==
            Ok(Array(Meanings(utf8, es)), offset + |HeadBytes(4, a)| + |EncodingAll(es)|)
    decreases es, 2
  {
    var h, all, values := HeadBytes(4, a), EncodingAll(es), Meanings(utf8, es);
    assert [] + values == values;
    AtSplit(data, offset, h, all);
    DecodesItems(utf8, data, offset + |h|, es, []);
    DecodesArray(utf8, data, offset, a, Count(es), values, offset + |h| + |all|);
  }

  lemma {:induction false} DecodesEMap(utf8: Utf8, data: seq<byte>, offset: nat, a: Arg, ps: EncPairs)
    requires Says(a, PairCount(ps)) && PairsReadable(utf8, ps)
    requires At(data, offset, HeadBytes(5, a) + EncodingPairs(ps))
    ensures Decode(utf8, data, offset) ==
            Ok(Map(Entries(utf8, [], ps)), offset + |HeadBytes(5, a)| + |EncodingPairs(ps)|)
    decreases ps, 4
  {
    var h, all := HeadBytes(5, a), EncodingPairs(ps);
    AtSplit(data, offset, h, all);
    DecodesPairs(utf8, data, offset + |h|, ps, []);
    DecodesMap(utf8, data, offset, a, PairCount(ps), Entries(utf8, [], ps), offset + |h| + |all|);
  }

  lemma {:induction false} DecodesItems(utf8: Utf8, data: seq<byte>, offset: nat, es: Encs, items: seq<Value>)
    requires AllReadable(utf8, es) && At(data, offset, EncodingAll(es))
    ensures DecodeItems(utf8, data, offset, Count(es), items) ==
            Ok(items + Meanings(utf8, es), offset + |EncodingAll(es)|)
    decreases es, 1
  {
    if es.NoItem? {
      assert items + [] == items;
    } else {
      var item, next := DecodesItem(utf8, data, offset, es, items);
      ItemsStep(utf8, data, offset, Count(es), items, item, next,
                Ok(items + Meanings(utf8, es), offset + |EncodingAll(es)|));
    }
  }

  lemma {:induction false} DecodesItem(utf8: Utf8, data: seq<byte>, offset: nat, es: Encs, items: seq<Value>)
    returns (item: Value, next: nat)
    requires es.Item? && AllReadable(utf8, es) && At(data, offset, EncodingAll(es))
    ensures Decode(utf8, data, offset) == Ok(item, next)
    ensures DecodeItems(utf8, data, next, Count(es) - 1, items + [item]) ==
            Ok(items + Meanings(utf8, es), offset + |EncodingAll(es)|)
    decreases es, 0
  {
    item, next := Meaning(utf8, es.head), offset + |Encoding(es.head)|;
    var tail := Meanings(utf8, es.tail);
    assert items + [item] + tail == items + ([item] + tail);
    AtSplit(data, offset, Encoding(es.head), EncodingAll(es.tail));
    DecodesEncoding(utf8, data, offset, es.head);
    DecodesItems(utf8, data, next, es.tail, items + [item]);
  }

  lemma {:induction false} DecodesPairs(utf8: Utf8, data: seq<byte>, offset: nat, ps: EncPairs, d: seq<(Value, Value)>)
    requires PairsReadable(utf8, ps) && At(data, offset, EncodingPairs(ps))
    ensures DecodePairs(utf8, data, offset, PairCount(ps), d) == Ok(Entries(utf8, d, ps), offset + |EncodingPairs(ps)|)
    decreases ps, 3
  {
    if ps.Pair? {
      var key, mid, value, next, r := DecodesPair(utf8, data, offset, ps, d);
      PairsStep(utf8, data, offset, PairCount(ps), d, key, mid, value, next, r);
    }
  }

  /** The first key and value, and what the rest decodes to. */
  lemma {:induction false} DecodesPair(utf8: Utf8, data: seq<byte>, offset: nat, ps: EncPairs, d: seq<(Value, Value)>)
    returns (key: Value, mid: nat, value: Value, next: nat, r: Result<seq<(Value, Value)>>)
    requires ps.Pair? && PairsReadable(utf8, ps) && At(data, offset, EncodingPairs(ps))
    ensures Hashable(key) && Decode(utf8, data, offset) == Ok(key, mid) && Decode(utf8, data, mid) == Ok(value, next)
    ensures DecodePairs(utf8, data, next, PairCount(ps) - 1, Put(d, key, value)) == r
    ensures r == Ok(Entries(utf8, d, ps), offset + |EncodingPairs(ps)|)
    decreases ps, 1
  {
    r := Ok(Entries(utf8, d, ps), offset + |EncodingPairs(ps)|);
    PairParts(utf8, ps, d);
    AtSplit(data, offset, Encoding(ps.key), Encoding(ps.value) + EncodingPairs(ps.rest));
    ScalarKey(utf8, ps.key);
    key, mid := Meaning(utf8, ps.key), offset + |Encoding(ps.key)|;
    DecodesEncoding(utf8, data, offset, ps.key);
    value, next := DecodesRest(utf8, data, mid, ps, d, key);
  }

  lemma PairParts(utf8: Utf8, ps: EncPairs, d: seq<(Value, Value)>)
    requires ps.Pair?
    ensures PairCount(ps) - 1 == PairCount(ps.rest)
    ensures Entries(utf8, d, ps) == Entries(utf8, Put(d, Meaning(utf8, ps.key), Meaning(utf8, ps.value)), ps.rest)
    ensures |EncodingPairs(ps)| == |Encoding(ps.key)| + |Encoding(ps.value)| + |EncodingPairs(ps.rest)|
  {
  }

  /** The first value, and what the pairs after it decode to. */
  lemma {:induction false} DecodesRest(utf8: Utf8, data: seq<byte>, at: nat, ps: EncPairs, d: seq<(Value, Value)>,
                                       key: Value)
    returns (value: Value, next: nat)
    requires ps.Pair? && Readable(utf8, ps.value) && PairsReadable(utf8, ps.rest)
    requires At(data, at, Encoding(ps.value) + EncodingPairs(ps.rest))
    ensures Decode(utf8, data, at) == Ok(value, next) && value == Meaning(utf8, ps.value)
    ensures DecodePairs(utf8, data, next, PairCount(ps.rest), Put(d, key, value)) ==
            Ok(Entries(utf8, Put(d, key, value), ps.rest), at + |Encoding(ps.value)| + |EncodingPairs(ps.rest)|)
    decreases ps, 0
  {
    value, next := Meaning(utf8, ps.value), at + |Encoding(ps.value)|;
    AtSplit(data, at, Encoding(ps.value), EncodingPairs(ps.rest));
    DecodesEncoding(utf8, data, at, ps.value);
    DecodesPairs(utf8, data, next, ps.rest, Put(d, key, value));
  }
}
