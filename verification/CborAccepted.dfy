/** What the decoder accepts: exactly the encodings, as long as it is not made to read
    past the end of the data. */
module CborAccepted {
  import opened Frames
  import opened Cbor
  import opened CborEncodings

  /** The encoding stands at the offset, ends at `next` and means `value`. */
  ghost predicate Encodes(utf8: Utf8, data: seq<byte>, offset: nat, e: Enc, value: Value, next: nat) {
    Readable(utf8, e) && At(data, offset, Encoding(e)) && next == offset + |Encoding(e)| && value == Meaning(utf8, e)
  }

  ghost predicate EncodesAll(utf8: Utf8, data: seq<byte>, offset: nat, es: Encs, values: seq<Value>, next: nat) {
    AllReadable(utf8, es) && At(data, offset, EncodingAll(es)) && next == offset + |EncodingAll(es)| &&
    values == Meanings(utf8, es)
  }

  ghost predicate EncodesPairs(utf8: Utf8, data: seq<byte>, offset: nat, ps: EncPairs,
                               d: seq<(Value, Value)>, entries: seq<(Value, Value)>, next: nat) {
    PairsReadable(utf8, ps) && At(data, offset, EncodingPairs(ps)) && next == offset + |EncodingPairs(ps)| &&
    entries == Entries(utf8, d, ps)
  }

  lemma ScalarFound(utf8: Utf8, data: seq<byte>, offset: nat, a: Arg, major: nat, n: nat) returns (e: Enc)
    requires major == 0 || major == 1 || major == 7
    requires Says(a, n) && At(data, offset, HeadBytes(major, a))
    ensures Encodes(utf8, data, offset, e, if major == 0 then Int(n) else if major == 1 then Int(-1 - n) else Simple(n),
                    offset + |HeadBytes(major, a)|)
  {
    e := if major == 0 then EUint(a)
         else if major == 1 then ENint(a)
         else if a.Short? && IsSimple(a.n) then ESimple(a.n)
         else EOther(a);
  }

  lemma StringFound(utf8: Utf8, data: seq<byte>, offset: nat, a: Arg, major: nat, n: nat) returns (e: Enc)
    requires Says(a, n) && At(data, offset, HeadBytes(major, a))
    requires offset + |HeadBytes(major, a)| + n <= |data|
    requires major == 2 || (major == 3 && utf8(SliceOf(data, offset + |HeadBytes(major, a)|, n)).Some?)
    ensures var at := offset + |HeadBytes(major, a)|;
            var s := SliceOf(data, at, n);
            Encodes(utf8, data, offset, e, if major == 2 then Bytes(s) else Text(utf8(s).value), at + n)
  {
    var at := offset + |HeadBytes(major, a)|;
    var s := data[at..at + n];
    AtSplit(data, offset, HeadBytes(major, a), s);
    e := if major == 2 then EBytes(a, s) else EText(a, s);
  }

  function SliceOf(data: seq<byte>, at: nat, n: nat): seq<byte> {
    Slice(data, at, at + n)
  }

  lemma ArrayFound(utf8: Utf8, data: seq<byte>, offset: nat, a: Arg, es: Encs, values: seq<Value>, next: nat)
    requires Says(a, Count(es)) && At(data, offset, HeadBytes(4, a))
    requires EncodesAll(utf8, data, offset + |HeadBytes(4, a)|, es, values, next)
    ensures Encodes(utf8, data, offset, EArray(a, es), Array(values), next)
  {
    AtSplit(data, offset, HeadBytes(4, a), EncodingAll(es));
  }

  lemma MapFound(utf8: Utf8, data: seq<byte>, offset: nat, a: Arg, ps: EncPairs,
                 entries: seq<(Value, Value)>, next: nat)
    requires Says(a, PairCount(ps)) && At(data, offset, HeadBytes(5, a))
    requires EncodesPairs(utf8, data, offset + |HeadBytes(5, a)|, ps, [], entries, next)
    ensures Encodes(utf8, data, offset, EMap(a, ps), Map(entries), next)
  {
    AtSplit(data, offset, HeadBytes(5, a), EncodingPairs(ps));
  }

  lemma ItemFound(utf8: Utf8, data: seq<byte>, offset: nat, e: Enc, v: Value, mid: nat,
                  es: Encs, vs: seq<Value>, next: nat)
    requires Encodes(utf8, data, offset, e, v, mid) && EncodesAll(utf8, data, mid, es, vs, next)
    ensures EncodesAll(utf8, data, offset, Item(e, es), [v] + vs, next)
  {
    AtSplit(data, offset, Encoding(e), EncodingAll(es));
  }

  lemma PairFound(utf8: Utf8, data: seq<byte>, offset: nat,
                  k: Enc, key: Value, mid: nat, e: Enc, value: Value, end: nat,
                  d: seq<(Value, Value)>, ps: EncPairs, entries: seq<(Value, Value)>, next: nat)
    requires Encodes(utf8, data, offset, k, key, mid) && Hashable(key) && Encodes(utf8, data, mid, e, value, end)
    requires EncodesPairs(utf8, data, end, ps, Put(d, key, value), entries, next)
    ensures EncodesPairs(utf8, data, offset, Pair(k, e, ps), d, entries, next)
  {
    ScalarKey(utf8, k);
    AtSplit(data, mid, Encoding(e), EncodingPairs(ps));
    AtSplit(data, offset, Encoding(k), Encoding(e) + EncodingPairs(ps));
  }

  /** Whatever is decoded without reading past the end has an encoding there. */
  lemma {:induction false} EncodingFound(utf8: Utf8, data: seq<byte>, offset: nat, r: Result<Value>) returns (e: Enc)
    requires r == Decode(utf8, data, offset) && r.Ok? && r.next <= |data|
    ensures Encodes(utf8, data, offset, e, r.value, r.next)
    decreases Left(data, offset), 0, 2
  {
    var head := ReadHead(data, offset);
    var Head(major, arg) := head.value;
    var a := HeadFound(data, offset);
    if major == 4 {
      e := ArrayEncodingFound(utf8, data, offset, a, arg, r);
    } else if major == 5 {
      e := MapEncodingFound(utf8, data, offset, a, arg, r);
    } else if major == 2 || major == 3 {
      e := StringFound(utf8, data, offset, a, major, arg);
    } else {
      e := ScalarFound(utf8, data, offset, a, major, arg);
    }
  }

  lemma {:induction false} ArrayEncodingFound(utf8: Utf8, data: seq<byte>, offset: nat, a: Arg, n: nat,
                                              r: Result<Value>)
    returns (e: Enc)
    requires r == Decode(utf8, data, offset) && r.Ok? && r.next <= |data|
    requires Says(a, n) && At(data, offset, HeadBytes(4, a))
    ensures Encodes(utf8, data, offset, e, r.value, r.next)
    decreases Left(data, offset), 0, 1
  {
    HeadRead(data, offset, 4, a);
    var at := offset + |HeadBytes(4, a)|;
    var items := DecodeItems(utf8, data, at, n, []);
    var es := ItemsFound(utf8, data, at, n, [], items);
    assert items.value[0..] == items.value;
    ArrayFound(utf8, data, offset, a, es, items.value, items.next);
    e := EArray(a, es);
  }

  lemma {:induction false} MapEncodingFound(utf8: Utf8, data: seq<byte>, offset: nat, a: Arg, n: nat, r: Result<Value>)
    returns (e: Enc)
    requires r == Decode(utf8, data, offset) && r.Ok? && r.next <= |data|
    requires Says(a, n) && At(data, offset, HeadBytes(5, a))
    ensures Encodes(utf8, data, offset, e, r.value, r.next)
    decreases Left(data, offset), 0, 1
  {
    HeadRead(data, offset, 5, a);
    var at := offset + |HeadBytes(5, a)|;
    var pairs := DecodePairs(utf8, data, at, n, []);
    var ps := PairsFound(utf8, data, at, n, [], pairs);
    MapFound(utf8, data, offset, a, ps, pairs.value, pairs.next);
    e := EMap(a, ps);
  }

  lemma {:induction false} ItemsFound(utf8: Utf8, data: seq<byte>, offset: nat, n: nat, items: seq<Value>,
                                      r: Result<seq<Value>>) returns (es: Encs)
    requires r == DecodeItems(utf8, data, offset, n, items) && r.Ok? && r.next <= |data|
    ensures Count(es) == n && |items| <= |r.value| && r.value[..|items|] == items
    ensures EncodesAll(utf8, data, offset, es, r.value[|items|..], r.next)
    decreases Left(data, offset), 1, n
  {
    if n == 0 {
      es := NoItem;
    } else {
      var item := Decode(utf8, data, offset);
      var rest := ItemsFound(utf8, data, item.next, n - 1, items + [item.value], r);
      var e := EncodingFound(utf8, data, offset, item);
      ItemFound(utf8, data, offset, e, item.value, item.next, rest, r.value[|items| + 1..], r.next);
      es := Item(e, rest);
      assert r.value[..|items| + 1] == items + [item.value];
      assert r.value[|items|..] == [item.value] + r.value[|items| + 1..];
      assert r.value[..|items|] == r.value[..|items| + 1][..|items|];
    }
  }

  lemma {:induction false} PairsFound(utf8: Utf8, data: seq<byte>, offset: nat, n: nat, d: seq<(Value, Value)>,
                                      r: Result<seq<(Value, Value)>>) returns (ps: EncPairs)
    requires r == DecodePairs(utf8, data, offset, n, d) && r.Ok? && r.next <= |data|
    ensures PairCount(ps) == n && EncodesPairs(utf8, data, offset, ps, d, r.value, r.next)
    decreases Left(data, offset), 1, n
  {
    if n == 0 {
      ps := NoPair;
    } else {
      var key := Decode(utf8, data, offset);
      var e, value, rest := ValueFound(utf8, data, key.next, n - 1, d, key.value, r);
      var k := EncodingFound(utf8, data, offset, key);
      PairFound(utf8, data, offset, k, key.value, key.next, e, value.value, value.next, d, rest, r.value, r.next);
      ps := Pair(k, e, rest);
    }
  }

  lemma {:induction false} ValueFound(utf8: Utf8, data: seq<byte>, offset: nat, n: nat, d: seq<(Value, Value)>,
                                      key: Value, r: Result<seq<(Value, Value)>>)
    returns (e: Enc, value: Result<Value>, ps: EncPairs)
    requires r == DecodeValue(utf8, data, offset, n, d, key) && r.Ok? && r.next <= |data|
    ensures Hashable(key) && value.Ok? && offset < value.next <= |data| && PairCount(ps) == n
    ensures Encodes(utf8, data, offset, e, value.value, value.next)
    ensures EncodesPairs(utf8, data, value.next, ps, Put(d, key, value.value), r.value, r.next)
    decreases Left(data, offset), 1, n
  {
    value := Decode(utf8, data, offset);
    ps := PairsFound(utf8, data, value.next, n, Put(d, key, value.value), r);
    e := EncodingFound(utf8, data, offset, value);
  }

  /** The decoder inverts encoding, in both directions: without reading past the end
      it yields a value and an offset exactly when an encoding of that value stands
      there, minimal or not, and ends at that offset. What comes before and after does
      not matter. */
  lemma DecodesIff(utf8: Utf8, data: seq<byte>, offset: nat, value: Value, next: nat)
    requires next <= |data|
    ensures Decode(utf8, data, offset) == Ok(value, next) <==> exists e :: Encodes(utf8, data, offset, e, value, next)
  {
    if Decode(utf8, data, offset) == Ok(value, next) {
      var e := EncodingFound(utf8, data, offset, Ok(value, next));
    }
    if e :| Encodes(utf8, data, offset, e, value, next) {
      DecodesEncoding(utf8, data, offset, e);
    }
  }

  /** No encoding is the beginning of another with a different meaning or length. */
  lemma EncodingsUnambiguous(utf8: Utf8, a: Enc, b: Enc, x: seq<byte>, y: seq<byte>)
    requires Readable(utf8, a) && Readable(utf8, b) && Encoding(a) + x == Encoding(b) + y
    ensures Encoding(a) == Encoding(b) && Meaning(utf8, a) == Meaning(utf8, b)
  {
    var data := Encoding(a) + x;
    assert At(data, 0, Encoding(a)) && At(data, 0, Encoding(b));
    DecodesEncoding(utf8, data, 0, a);
    DecodesEncoding(utf8, data, 0, b);
    assert Encoding(a) == data[..|Encoding(a)|] && Encoding(b) == data[..|Encoding(b)|];
  }
}
