/** The text of a controller mapping: a guid, a type and `button:input` pairs,
    separated by commas. */
module MappingText {

  type Buttons = map<string, seq<string>>

  /** `QString::split`, keeping empty parts. */
  function Split(s: string, sep: char): (parts: seq<string>)
    ensures |parts| > 0
  {
    if s == "" then [""]
    else
      var rest := Split(s[1..], sep);
      if s[0] == sep then [""] + rest else [[s[0]] + rest[0]] + rest[1..]
  }

  function Joined(parts: seq<string>, sep: char): string
    requires |parts| > 0
  {
    if |parts| == 1 then parts[0] else parts[0] + [sep] + Joined(parts[1..], sep)
  }

  predicate Free(s: string, c: char) { c !in s }

  lemma {:induction false} SplitFree(s: string, sep: char)
    requires Free(s, sep)
    ensures Split(s, sep) == [s]
  {
    if s == "" {
    } else {
      assert s[0] in s;
      assert forall c :: c in s[1..] ==> c in s;
      SplitFree(s[1..], sep);
      assert [s[0]] + s[1..] == s;
    }
  }

  lemma {:induction false} SplitHead(a: string, b: string, sep: char)
    requires Free(a, sep)
    ensures Split(a + [sep] + b, sep) == [a] + Split(b, sep)
  {
    var s := a + [sep] + b;
    if a == "" {
      assert s == [sep] + b;
      assert s[1..] == b;
    } else {
      assert a[0] in a;
      assert forall c :: c in a[1..] ==> c in a;
      SplitHead(a[1..], b, sep);
      assert s[1..] == a[1..] + [sep] + b;
      assert [s[0]] + a[1..] == a;
    }
  }

  lemma {:induction false} SplitJoined(parts: seq<string>, sep: char)
    requires |parts| > 0 && forall i :: 0 <= i < |parts| ==> Free(parts[i], sep)
    ensures Split(Joined(parts, sep), sep) == parts
  {
    if |parts| == 1 {
      SplitFree(parts[0], sep);
    } else {
      SplitHead(parts[0], Joined(parts[1..], sep), sep);
      SplitJoined(parts[1..], sep);
    }
  }

  // ----- parsing -----

  /** Keys that describe the mapping and are not buttons. */
  predicate Describes(key: string) {
    key == "crc" || key == "platform" || key == "type" || key == "hint" || "sdk" <= key
  }

  function ListOf(m: Buttons, key: string): seq<string> {
    if key in m then m[key] else []
  }

  /** One part of the text: a part without a colon is skipped, a repeated key
      extends its list. */
  function AddPart(m: Buttons, part: string): Buttons {
    var fields := Split(part, ':');
    if |fields| < 2 then m else m[fields[0] := ListOf(m, fields[0]) + fields[1..]]
  }

  function AddParts(m: Buttons, parts: seq<string>): Buttons {
    if parts == [] then m else AddPart(AddParts(m, parts[..|parts| - 1]), parts[|parts| - 1])
  }

  /** The physical inputs of a list now belong to `key`. */
  function Assign(physical: map<string, string>, inputs: seq<string>, key: string): map<string, string> {
    if inputs == [] then physical
    else Assign(physical, inputs[..|inputs| - 1], key)[inputs[|inputs| - 1] := key]
  }

  function AddPhysical(physical: map<string, string>, m: Buttons, part: string): map<string, string> {
    var fields := Split(part, ':');
    if |fields| < 2 || Describes(fields[0]) then physical
    else Assign(physical, ListOf(m, fields[0]) + fields[1..], fields[0])
  }

  function AddPhysicals(parts: seq<string>): map<string, string> {
    if parts == [] then map[]
    else
      AddPhysical(AddPhysicals(parts[..|parts| - 1]), AddParts(map[], parts[..|parts| - 1]), parts[|parts| - 1])
  }

  // ----- printing -----

  /** The pairs a button contributes, in list order. */
  function Pairs(key: string, inputs: seq<string>): seq<string> {
    if inputs == [] then [] else [key + ":" + inputs[0]] + Pairs(key, inputs[1..])
  }

  function AllPairs(m: Buttons, keys: seq<string>): seq<string>
    requires forall k :: k in keys ==> k in m
  {
    if keys == [] then [] else Pairs(keys[0], m[keys[0]]) + AllPairs(m, keys[1..])
  }

  /** The mapping text without its guid. `keys` are the buttons in the order they
      are visited in. */
  function Printed(kind: string, m: Buttons, keys: seq<string>): string
    requires forall k :: k in keys ==> k in m
  {
    Joined([kind] + AllPairs(m, keys), ',')
  }

  /** `keys` lists every button of the mapping once. */
  ghost predicate Enumerates(keys: seq<string>, m: Buttons) {
    (forall k :: k in keys <==> k in m) &&
    (forall i, j :: 0 <= i < j < |keys| ==> keys[i] != keys[j])
  }

  predicate Plain(s: string) { Free(s, ',') && Free(s, ':') }

  ghost predicate PlainMapping(m: Buttons) {
    forall k :: k in m ==> Plain(k) && m[k] != [] && forall i :: 0 <= i < |m[k]| ==> Plain(m[k][i])
  }

  lemma {:induction false} PairsParse(key: string, inputs: seq<string>, i: nat)
    requires i < |inputs|
    ensures |Pairs(key, inputs)| == |inputs| && Pairs(key, inputs)[i] == key + ":" + inputs[i]
  {
    if inputs[1..] == [] {
    } else {
      PairsParse(key, inputs[1..], if i == 0 then 0 else i - 1);
    }
  }

  lemma {:induction false} AddPartsConcat(m: Buttons, a: seq<string>, b: seq<string>)
    ensures AddParts(m, a + b) == AddParts(AddParts(m, a), b)
  {
    if b == [] {
      assert a + b == a;
    } else {
      AddPartsConcat(m, a, b[..|b| - 1]);
      assert (a + b)[..|a + b| - 1] == a + b[..|b| - 1];
    }
  }

  lemma {:induction false} AddPairs(m: Buttons, key: string, inputs: seq<string>)
    requires Plain(key) && forall i :: 0 <= i < |inputs| ==> Plain(inputs[i])
    ensures AddParts(m, Pairs(key, inputs)) == if inputs == [] then m else m[key := ListOf(m, key) + inputs]
    decreases inputs
  {
    if inputs == [] {
    } else {
      var first, rest := [key + ":" + inputs[0]], inputs[1..];
      AddPartsConcat(m, first, Pairs(key, rest));
      AddOnePair(m, key, inputs[0]);
      AddPairs(m[key := ListOf(m, key) + [inputs[0]]], key, rest);
      ListTwice(m, key, inputs);
    }
  }

  /** The first input and then the rest, or all at once. */
  lemma ListTwice(m: Buttons, key: string, inputs: seq<string>)
    requires inputs != []
    ensures var once := m[key := ListOf(m, key) + [inputs[0]]];
            var twice := if inputs[1..] == [] then once else once[key := ListOf(once, key) + inputs[1..]];
            twice == m[key := ListOf(m, key) + inputs]
  {
    var list := ListOf(m, key);
    assert list + [inputs[0]] + inputs[1..] == list + inputs;
    if inputs[1..] == [] {
      assert inputs == [inputs[0]];
    }
  }

  lemma AddOnePair(m: Buttons, key: string, input: string)
    requires Plain(key) && Plain(input)
    ensures AddParts(m, [key + ":" + input]) == m[key := ListOf(m, key) + [input]]
  {
    var first := key + ":" + input;
    SplitHead(key, input, ':');
    SplitFree(input, ':');
    assert [first][..0] == [];
    assert Split(first, ':')[1..] == [input];
  }

  lemma {:induction false} AddAllPairs(m: Buttons, keys: seq<string>, start: Buttons)
    requires PlainMapping(m) && (forall k :: k in keys ==> k in m && k !in start)
    requires forall i, j :: 0 <= i < j < |keys| ==> keys[i] != keys[j]
    ensures var r := AddParts(start, AllPairs(m, keys));
            && (forall k :: k in r <==> k in start || k in keys)
            && (forall k :: k in r ==> r[k] == if k in keys then m[k] else start[k])
  {
    if keys == [] {
    } else {
      var k0 := keys[0];
      AddPartsConcat(start, Pairs(k0, m[k0]), AllPairs(m, keys[1..]));
      AddPairs(start, k0, m[k0]);
      assert ListOf(start, k0) + m[k0] == m[k0];
      AddAllPairs(m, keys[1..], start[k0 := m[k0]]);
      assert forall k :: k in keys <==> k == k0 || k in keys[1..];
    }
  }

  lemma {:induction false} PairsFree(m: Buttons, keys: seq<string>)
    requires PlainMapping(m) && forall k :: k in keys ==> k in m
    ensures forall i :: 0 <= i < |AllPairs(m, keys)| ==> Free(AllPairs(m, keys)[i], ',')
  {
    if keys == [] {
    } else {
      PairsFree(m, keys[1..]);
      var k0 := keys[0];
      var p := Pairs(k0, m[k0]);
      forall i | 0 <= i < |p| ensures Free(p[i], ',') {
        PairsParseAll(k0, m[k0]);
        PairsParse(k0, m[k0], i);
      }
    }
  }

  lemma {:induction false} PairsParseAll(key: string, inputs: seq<string>)
    ensures |Pairs(key, inputs)| == |inputs|
  {
    if inputs == [] {
    } else {
      PairsParseAll(key, inputs[1..]);
    }
  }

  lemma PrintedParts(guid: string, kind: string, m: Buttons, keys: seq<string>)
    requires Free(guid, ',') && Free(kind, ',') && PlainMapping(m) && forall k :: k in keys ==> k in m
    ensures Split(guid + "," + Printed(kind, m, keys), ',') == [guid, kind] + AllPairs(m, keys)
  {
    var pairs := AllPairs(m, keys);
    var parts := [kind] + pairs;
    assert [guid] + parts == [guid, kind] + pairs;
    PairsFree(m, keys);
    assert forall i :: 1 <= i < |parts| ==> parts[i] == pairs[i - 1];
    GuidFirst(guid, parts);
  }

  lemma GuidFirst(guid: string, parts: seq<string>)
    requires Free(guid, ',') && |parts| > 0 && forall i :: 0 <= i < |parts| ==> Free(parts[i], ',')
    ensures Split(guid + "," + Joined(parts, ','), ',') == [guid] + parts
  {
    SplitJoined(parts, ',');
    SplitHead(guid, Joined(parts, ','), ',');
  }

  lemma PairsParseBack(m: Buttons, keys: seq<string>)
    requires PlainMapping(m) && Enumerates(keys, m)
    ensures AddParts(map[], AllPairs(m, keys)) == m
  {
    AddAllPairs(m, keys, map[]);
  }

  /** Round trip: the parts of guid, comma and printed mapping are the guid, the
      type and pairs that parse back to the same lists in the same order, whatever
      order the buttons were visited in. */
  lemma MappingRoundTrip(guid: string, kind: string, m: Buttons, keys: seq<string>)
    requires Free(guid, ',') && Free(kind, ',') && PlainMapping(m) && Enumerates(keys, m)
    ensures var parts := Split(guid + "," + Printed(kind, m, keys), ',');
            |parts| >= 2 && parts[0] == guid && parts[1] == kind && AddParts(map[], parts[2..]) == m
  {
    PrintedParts(guid, kind, m, keys);
    PairsParseBack(m, keys);
    assert ([guid, kind] + AllPairs(m, keys))[2..] == AllPairs(m, keys);
  }
}
