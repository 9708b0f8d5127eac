/** The values that can be encoded, and what the decoder's dictionaries keep. */
module CborValues {
  import opened Frames
  import opened Cbor
  import opened CborEncodings

  const ARGUMENTS: int := 0x1_0000_0000_0000_0000

  ghost predicate Utf8Text(utf8: Utf8, text: string, bytes: seq<byte>) {
    utf8(bytes) == Some(text) && |bytes| < ARGUMENTS
  }

  ghost predicate DistinctKeys(d: seq<(Value, Value)>) {
    forall i, j :: 0 <= i < j < |d| ==> !SameKey(d[i].0, d[j].0)
  }

  /** Integers of 64 bits and a sign, strings, arrays, maps with distinct scalar keys,
      false, true and null. */
  ghost predicate Supported(utf8: Utf8, v: Value) {
    match v
    case Int(i) => -ARGUMENTS <= i < ARGUMENTS
    case Bytes(s) => |s| < ARGUMENTS
    case Text(t) => exists s :: Utf8Text(utf8, t, s)
    case Array(items) => |items| < ARGUMENTS && forall i :: 0 <= i < |items| ==> Supported(utf8, items[i])
    case Map(pairs) =>
      && |pairs| < ARGUMENTS && DistinctKeys(pairs)
      && forall i :: 0 <= i < |pairs| ==>
           Supported(utf8, pairs[i].0) && Supported(utf8, pairs[i].1) && Hashable(pairs[i].0)
    case Bool(_) => true
    case Null => true
  }

  function Power(k: nat): nat {
    if k == 0 then 1 else 256 * Power(k - 1)
  }

  /** n as k bytes, most significant first. */
  function ToBytes(n: nat, k: nat): (s: seq<byte>)
    ensures |s| == k
  {
    if k == 0 then [] else ToBytes(n / 256, k - 1) + [n % 256]
  }

  lemma {:induction false} BigEndianBytes(n: nat, k: nat)
    requires n < Power(k)
    ensures BigEndian(ToBytes(n, k)) == n
  {
    if k > 0 {
      BigEndianBytes(n / 256, k - 1);
    }
  }

  lemma {:induction false} BigEndianBound(s: seq<byte>)
    ensures BigEndian(s) < Power(|s|)
  {
    if s != [] {
      BigEndianBound(s[..|s| - 1]);
    }
  }

  function ArgSize(a: Arg): nat {
    if a.Short? then 0 else |a.bytes|
  }

  /** The shortest argument that says n, as in the preferred serialization of section
      4.1 of RFC 8949. */
  lemma ShortestArg(n: nat) returns (a: Arg)
    requires n < ARGUMENTS
    ensures Says(a, n) && forall b :: Says(b, n) ==> ArgSize(a) <= ArgSize(b)
  {
    Powers();
    var k := if n < 0x100 then 1 else if n < 0x1_0000 then 2 else if n < 0x1_0000_0000 then 4 else 8;
    a := if n < 24 then Short(n) else Long(ToBytes(n, k));
    if n >= 24 {
      BigEndianBytes(n, k);
    }
    forall b | Says(b, n) ensures ArgSize(a) <= ArgSize(b) {
      if b.Long? {
        BigEndianBound(b.bytes);
      }
    }
  }

  lemma Powers()
    ensures Power(1) == 0x100 && Power(2) == 0x1_0000 && Power(4) == 0x1_0000_0000 && Power(8) == ARGUMENTS
  {
    assert Power(4) == 256 * (256 * Power(2));
    assert Power(6) == 256 * (256 * Power(4));
    assert Power(8) == 256 * (256 * Power(6));
  }

  // ----- dictionaries -----

  function Lookup(d: seq<(Value, Value)>, key: Value): Option<Value> {
    if d == [] then None
    else if SameKey(d[0].0, key) then Some(d[0].1)
    else Lookup(d[1..], key)
  }

  /** Assigning to a key changes what is found under it and nothing else. */
  lemma {:induction false} PutThenLookup(d: seq<(Value, Value)>, key: Value, value: Value, x: Value)
    ensures Lookup(Put(d, key, value), x) == if SameKey(key, x) then Some(value) else Lookup(d, x)
  {
    if d != [] && !SameKey(d[0].0, key) {
      PutThenLookup(d[1..], key, value, x);
    }
  }

  /** The keys stay, in their order; a new one comes last. */
  lemma {:induction false} PutKeepsKeys(d: seq<(Value, Value)>, key: Value, value: Value)
    ensures var t := Put(d, key, value);
            && |d| <= |t| <= |d| + 1 && (forall i :: 0 <= i < |d| ==> t[i].0 == d[i].0)
            && (|t| > |d| ==> t[|d|].0 == key && forall i :: 0 <= i < |d| ==> !SameKey(d[i].0, key))
  {
    if d != [] && !SameKey(d[0].0, key) {
      PutKeepsKeys(d[1..], key, value);
      var t, u := Put(d, key, value), Put(d[1..], key, value);
      assert t == [d[0]] + u;
      assert forall i :: 1 <= i < |d| ==> d[i] == d[1..][i - 1] && t[i] == u[i - 1];
    }
  }

  lemma {:induction false} PutNew(d: seq<(Value, Value)>, key: Value, value: Value)
    requires forall i :: 0 <= i < |d| ==> !SameKey(d[i].0, key)
    ensures Put(d, key, value) == d + [(key, value)]
  {
    if d == [] {
    } else {
      PutNew(d[1..], key, value);
      assert d == [d[0]] + d[1..];
    }
  }

  /** Whatever pairs are encoded, a decoded map has distinct keys. */
  lemma {:induction false} EntriesDistinct(utf8: Utf8, d: seq<(Value, Value)>, ps: EncPairs)
    requires DistinctKeys(d)
    ensures DistinctKeys(Entries(utf8, d, ps))
    decreases ps
  {
    if ps.Pair? {
      var k, v := Meaning(utf8, ps.key), Meaning(utf8, ps.value);
      PutKeepsKeys(d, k, v);
      EntriesDistinct(utf8, Put(d, k, v), ps.rest);
    }
  }

  // ----- every supported value has an encoding -----

  lemma {:induction false} EncodingExists(utf8: Utf8, v: Value) returns (e: Enc)
    requires Supported(utf8, v)
    ensures WellFormed(utf8, e) && Meaning(utf8, e) == v
    decreases v, 1, 0
  {
    match v
    case Int(i) =>
      var a := ShortestArg(if i >= 0 then i else -1 - i);
      e := if i >= 0 then EUint(a) else ENint(a);
    case Bytes(s) =>
      var a := ShortestArg(|s|);
      e := EBytes(a, s);
    case Text(t) =>
      var s :| Utf8Text(utf8, t, s);
      var a := ShortestArg(|s|);
      e := EText(a, s);
    case Array(items) =>
      var es := EncodingsExist(utf8, items);
      var a := ShortestArg(|items|);
      e := EArray(a, es);
    case Map(pairs) =>
      assert pairs[0..] == pairs && pairs[..0] == [];
      var ps := PairsExist(utf8, pairs, 0);
      var a := ShortestArg(|pairs|);
      e := EMap(a, ps);
    case Bool(b) => e := ESimple(if b then 21 else 20);
    case Null => e := ESimple(22);
  }

  lemma {:induction false} EncodingsExist(utf8: Utf8, items: seq<Value>) returns (es: Encs)
    requires forall i :: 0 <= i < |items| ==> Supported(utf8, items[i])
    ensures AllReadable(utf8, es) && AllExact(es) && Meanings(utf8, es) == items && Count(es) == |items|
    decreases items, 0, 0
  {
    if items == [] {
      es := NoItem;
    } else {
      var e := EncodingExists(utf8, items[0]);
      var rest := EncodingsExist(utf8, items[1..]);
      es := Item(e, rest);
    }
  }

  /** With distinct keys a map's pairs are kept in order. */
  lemma {:induction false} PairsExist(utf8: Utf8, pairs: seq<(Value, Value)>, from: nat) returns (ps: EncPairs)
    requires from <= |pairs| && DistinctKeys(pairs)
    requires forall i :: 0 <= i < |pairs| ==>
               Supported(utf8, pairs[i].0) && Supported(utf8, pairs[i].1) && Hashable(pairs[i].0)
    ensures PairsReadable(utf8, ps) && PairsExact(ps) && PairCount(ps) == |pairs| - from
    ensures Entries(utf8, pairs[..from], ps) == pairs
    decreases Map(pairs), 0, |pairs| - from
  {
    if from == |pairs| {
      ps := NoPair;
      assert pairs[..from] == pairs;
    } else {
      var key, value := pairs[from].0, pairs[from].1;
      var k := EncodingExists(utf8, pairs[from].0);
      var v := EncodingExists(utf8, pairs[from].1);
      ScalarKey(utf8, k);
      PutNew(pairs[..from], key, value);
      assert pairs[..from] + [(key, value)] == pairs[..from + 1];
      var rest := PairsExist(utf8, pairs, from + 1);
      ps := Pair(k, v, rest);
    }
  }

  /** Round trip: a supported value has an encoding, and each of its encodings, placed
      after any bytes and before any, decodes to it and to the offset just past it. */
  lemma RoundTrip(utf8: Utf8, v: Value, before: seq<byte>, after: seq<byte>)
    requires Supported(utf8, v)
    ensures exists e :: WellFormed(utf8, e) && Meaning(utf8, e) == v
    ensures forall e :: WellFormed(utf8, e) && Meaning(utf8, e) == v ==>
              Decode(utf8, before + Encoding(e) + after, |before|) == Ok(v, |before| + |Encoding(e)|)
  {
    var example := EncodingExists(utf8, v);
    forall e | WellFormed(utf8, e) && Meaning(utf8, e) == v
      ensures Decode(utf8, before + Encoding(e) + after, |before|) == Ok(v, |before| + |Encoding(e)|)
    {
      var data := before + Encoding(e) + after;
      assert data[|before|..|before| + |Encoding(e)|] == Encoding(e);
      DecodesEncoding(utf8, data, |before|, e);
    }
  }

  // ----- items that are not what they are read as -----

  /** What an item of major type 7 stands for, by sections 3 and 3.3 of RFC 8949. */
  datatype Seven = False | True | Nothing | Undefined | Unassigned(n: nat) | Float(size: nat, bits: nat)

  function StandsFor(a: Arg): Seven {
    match a
    case Short(n) =>
      if n == 20 then False else if n == 21 then True else if n == 22 then Nothing
      else if n == 23 then Undefined else Unassigned(n)
    case Long(bytes) =>
      if |bytes| == 1 then Unassigned(BigEndian(bytes)) else Float(|bytes|, BigEndian(bytes))
  }

  predicate Represents(v: Value, x: Seven) {
    (v == Bool(false) && x == False) || (v == Bool(true) && x == True) || (v == Null && x == Nothing)
  }

  /** An item of major type 7 is read by its argument alone, however wide it is; that is
      what it stands for exactly when the additional information is 20, 21 or 22. */
  lemma MajorSevenIff(utf8: Utf8, data: seq<byte>, offset: nat, a: Arg)
    requires ValidArg(a) && At(data, offset, HeadBytes(7, a))
    ensures Decode(utf8, data, offset) == Ok(Simple(ArgValue(a)), offset + |HeadBytes(7, a)|)
    ensures Represents(Simple(ArgValue(a)), StandsFor(a)) <==> a == Short(20) || a == Short(21) || a == Short(22)
  {
    HeadRead(data, offset, 7, a);
  }

  /** A half-precision number whose bits are those of 20 is read as false. */
  lemma FloatIsReadAsFalse(utf8: Utf8)
    ensures StandsFor(Long([0x00, 0x14])) == Float(2, 20)
    ensures Decode(utf8, [0xF9, 0x00, 0x14], 0) == Ok(Bool(false), 3)
  {
    var s: seq<byte> := [0x00, 0x14];
    assert s[..1] == [0x00] && s[..1][..0] == [];
    assert BigEndian(s[..1]) == 0;
    assert HeadBytes(7, Long(s)) == [0xF9] + s && [0xF9] + s == [0xF9, 0x00, 0x14];
    MajorSevenIff(utf8, [0xF9, 0x00, 0x14], 0, Long(s));
  }

  lemma {:induction false} PrefixIsLess(s: seq<byte>, k: nat)
    requires k < |s|
    ensures 256 * BigEndian(s[..k]) <= BigEndian(s)
  {
    var n := |s| - 1;
    if k < n {
      PrefixIsLess(s[..n], k);
      assert s[..n][..k] == s[..k];
    }
  }

  /** The data end within the bytes of an argument. */
  ghost predicate CutWithin(data: seq<byte>, offset: nat, major: nat, bytes: seq<byte>, k: nat) {
    && ValidArg(Long(bytes)) && k < |bytes| && offset < |data|
    && data[offset..] == [Initial(major, Info(|bytes|))] + bytes[..k]
  }

  /** An argument that is cut off by the end of the data is read from the bytes that are
      there, and the offset past it lies beyond the data. */
  lemma CutHeadIsRead(data: seq<byte>, offset: nat, major: nat, bytes: seq<byte>, k: nat)
    requires major < 8 && CutWithin(data, offset, major, bytes, k)
    ensures ReadHead(data, offset) == Ok(Head(major, BigEndian(bytes[..k])), offset + 1 + |bytes|)
    ensures offset + 1 + |bytes| > |data|
  {
    var rest := data[offset..];
    assert data[offset] == rest[0] && data[offset + 1..] == rest[1..] && rest[1..] == bytes[..k];
    assert Size(Info(|bytes|)) == |bytes|;
    assert Slice(data, offset + 1, offset + 1 + |bytes|) == bytes[..k];
  }

  /** The integer of major type 0 or 1 with this argument. */
  function IntegerOf(major: nat, n: nat): Value {
    Int(if major == 0 then n else -1 - n)
  }

  /** So a truncated integer of either sign is read wherever it is cut, and as the right
      number exactly when its argument is zero. */
  lemma TruncatedIntegerIff(utf8: Utf8, data: seq<byte>, offset: nat, major: nat, bytes: seq<byte>, k: nat)
    requires major <= 1 && CutWithin(data, offset, major, bytes, k)
    ensures Decode(utf8, data, offset) == Ok(IntegerOf(major, BigEndian(bytes[..k])), offset + 1 + |bytes|)
    ensures offset + 1 + |bytes| > |data|
    ensures IntegerOf(major, BigEndian(bytes[..k])) == IntegerOf(major, BigEndian(bytes)) <==> BigEndian(bytes) == 0
  {
    CutHeadIsRead(data, offset, major, bytes, k);
    PrefixIsLess(bytes, k);
  }

  /** A string that is cut off is read as the bytes that are there. */
  lemma TruncatedStringIsRead(utf8: Utf8, data: seq<byte>, offset: nat, a: Arg)
    requires ValidArg(a) && At(data, offset, HeadBytes(2, a))
    requires offset + |HeadBytes(2, a)| + ArgValue(a) > |data|
    ensures var at := offset + |HeadBytes(2, a)|; Decode(utf8, data, offset) == Ok(Bytes(data[at..]), at + ArgValue(a))
  {
    HeadRead(data, offset, 2, a);
  }
}
