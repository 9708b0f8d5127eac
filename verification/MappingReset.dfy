/** Setting a mapping back by hand: the text that is saved against the text the
    controller reported. */
module MappingReset {
  import opened MappingText
  import opened MappingEditor

  // ----- splitting -----

  lemma {:induction false} SplitConcat(a: string, b: string, sep: char)
    ensures Split(a + [sep] + b, sep) == Split(a, sep) + Split(b, sep)
  {
    var s := a + [sep] + b;
    if a == "" {
      assert s == [sep] + b && s[1..] == b;
    } else {
      SplitConcat(a[1..], b, sep);
      assert s[0] == a[0] && s[1..] == a[1..] + [sep] + b;
      PartsConcat(a[0], Split(a[1..], sep), Split(b, sep));
    }
  }

  lemma PartsConcat(first: char, rest: seq<string>, tail: seq<string>)
    requires |rest| > 0
    ensures [""] + (rest + tail) == [""] + rest + tail
    ensures [[first] + (rest + tail)[0]] + (rest + tail)[1..] == [[first] + rest[0]] + rest[1..] + tail
  {
    assert (rest + tail)[1..] == rest[1..] + tail;
  }

  ghost predicate AllFree(parts: seq<string>, c: char) {
    forall i :: 0 <= i < |parts| ==> Free(parts[i], c)
  }

  lemma {:induction false} SplitPartsFree(s: string, sep: char)
    ensures AllFree(Split(s, sep), sep)
  {
    if s != "" {
      SplitPartsFree(s[1..], sep);
    }
  }

  lemma {:induction false} SplitKeepsFree(s: string, sep: char, c: char)
    requires Free(s, c)
    ensures AllFree(Split(s, sep), c)
  {
    if s != "" {
      assert s[0] in s && forall x :: x in s[1..] ==> x in s;
      SplitKeepsFree(s[1..], sep, c);
    }
  }

  lemma {:induction false} JoinedSplit(s: string, sep: char)
    ensures Joined(Split(s, sep), sep) == s
  {
    if s != "" {
      JoinedSplit(s[1..], sep);
      var rest := Split(s[1..], sep);
      if s[0] == sep {
        assert ([""] + rest)[1..] == rest;
      } else {
        assert ([[s[0]] + rest[0]] + rest[1..])[1..] == rest[1..];
      }
      assert [s[0]] + s[1..] == s;
    }
  }

  /** The printed text splits into the parts of the type and the pairs. */
  lemma PrintedSplits(kind: string, m: Buttons, keys: seq<string>)
    requires PlainMapping(m) && forall k :: k in keys ==> k in m
    ensures Split(Printed(kind, m, keys), ',') == Split(kind, ',') + AllPairs(m, keys)
  {
    var pairs := AllPairs(m, keys);
    if pairs == [] {
      assert [kind] + pairs == [kind] && Split(kind, ',') + pairs == Split(kind, ',');
    } else {
      assert ([kind] + pairs)[1..] == pairs;
      SplitConcat(kind, Joined(pairs, ','), ',');
      PairsFree(m, keys);
      SplitJoined(pairs, ',');
      assert Printed(kind, m, keys) == kind + [','] + Joined(pairs, ',');
    }
  }

  // ----- what is parsed is plain -----

  lemma {:induction false} ParsedIsPlain(parts: seq<string>)
    requires AllFree(parts, ',')
    ensures PlainMapping(AddParts(map[], parts))
  {
    if parts != [] {
      var n := |parts| - 1;
      ParsedIsPlain(parts[..n]);
      SplitPartsFree(parts[n], ':');
      SplitKeepsFree(parts[n], ':', ',');
      PlainStep(AddParts(map[], parts[..n]), Split(parts[n], ':'));
    }
  }

  lemma PlainStep(m: Buttons, fields: seq<string>)
    requires PlainMapping(m) && |fields| > 0 && AllFree(fields, ',') && AllFree(fields, ':')
    ensures |fields| >= 2 ==> PlainMapping(m[fields[0] := ListOf(m, fields[0]) + fields[1..]])
  {
    if |fields| >= 2 {
      var list := ListOf(m, fields[0]) + fields[1..];
      forall i | 0 <= i < |list| ensures Plain(list[i]) {
        assert i >= |ListOf(m, fields[0])| ==> list[i] == fields[1 + i - |ListOf(m, fields[0])|];
      }
    }
  }

  // ----- counting -----

  /** The inputs that the parts give to buttons. */
  function InputCount(parts: seq<string>): nat {
    if parts == [] then 0 else InputCount(parts[..|parts| - 1]) + |Split(parts[|parts| - 1], ':')| - 1
  }

  /** The inputs listed under the keys. */
  function ListedCount(m: Buttons, keys: seq<string>): nat {
    if keys == [] then 0 else |ListOf(m, keys[0])| + ListedCount(m, keys[1..])
  }

  lemma {:induction false} PairsCount(m: Buttons, keys: seq<string>)
    requires forall k :: k in keys ==> k in m
    ensures |AllPairs(m, keys)| == ListedCount(m, keys)
  {
    if keys != [] {
      PairsParseAll(keys[0], m[keys[0]]);
      PairsCount(m, keys[1..]);
    }
  }

  lemma {:induction false} CountExtended(m: Buttons, key: string, added: seq<string>, keys: seq<string>)
    requires Distinct(keys)
    ensures ListedCount(m[key := ListOf(m, key) + added], keys) ==
            ListedCount(m, keys) + if key in keys then |added| else 0
  {
    if keys != [] {
      CountExtended(m, key, added, keys[1..]);
      assert key in keys <==> key == keys[0] || key in keys[1..];
    }
  }

  /** A parsed mapping lists as many inputs as its text gives. */
  lemma {:induction false} ParsedCount(parts: seq<string>, keys: seq<string>)
    requires Distinct(keys) && forall k :: k in AddParts(map[], parts) ==> k in keys
    ensures ListedCount(AddParts(map[], parts), keys) == InputCount(parts)
  {
    if parts == [] {
      NothingListed(keys);
    } else {
      var n := |parts| - 1;
      var before, fields := AddParts(map[], parts[..n]), Split(parts[n], ':');
      assert forall k :: k in before ==> k in AddParts(map[], parts);
      ParsedCount(parts[..n], keys);
      if |fields| >= 2 {
        assert fields[0] in AddParts(map[], parts);
        CountExtended(before, fields[0], fields[1..], keys);
      }
    }
  }

  lemma {:induction false} NothingListed(keys: seq<string>)
    ensures ListedCount(map[], keys) == 0
  {
    if keys != [] {
      NothingListed(keys[1..]);
    }
  }

  /** Parts that are printed pairs give one input each. */
  ghost predicate OneInputEach(parts: seq<string>) {
    forall i :: 0 <= i < |parts| ==> |Split(parts[i], ':')| == 2
  }

  lemma {:induction false} CountOneEach(parts: seq<string>)
    requires OneInputEach(parts)
    ensures InputCount(parts) == |parts|
  {
    if parts != [] {
      CountOneEach(parts[..|parts| - 1]);
    }
  }

  lemma {:induction false} PairsOneEach(m: Buttons, keys: seq<string>)
    requires PlainMapping(m) && forall k :: k in keys ==> k in m
    ensures OneInputEach(AllPairs(m, keys))
  {
    if keys != [] {
      PairsOneEach(m, keys[1..]);
      ButtonOneEach(keys[0], m[keys[0]]);
    }
  }

  lemma {:induction false} ButtonOneEach(key: string, inputs: seq<string>)
    requires Plain(key) && forall i :: 0 <= i < |inputs| ==> Plain(inputs[i])
    ensures OneInputEach(Pairs(key, inputs))
  {
    if inputs != [] {
      SplitHead(key, inputs[0], ':');
      SplitFree(inputs[0], ':');
      ButtonOneEach(key, inputs[1..]);
    }
  }

  // ----- the comparison -----

  /** The mapping that the text of a controller describes. */
  function Reported(text: string): Buttons {
    var parts := Split(text, ',');
    if |parts| < 2 then map[] else AddParts(map[], parts[2..])
  }

  lemma ReportedIsPlain(text: string)
    ensures PlainMapping(Reported(text))
  {
    var parts := Split(text, ',');
    SplitPartsFree(text, ',');
    if |parts| >= 2 {
      assert AllFree(parts[2..], ',');
      ParsedIsPlain(parts[2..]);
    }
  }

  /** There is one pair fewer than the parts after the guid. */
  lemma PairsAreFewer(text: string, keys: seq<string>)
    requires |Split(text, ',')| >= 2 && Enumerates(keys, Reported(text))
    ensures AllPairs(Reported(text), keys) != Split(text, ',')[1..]
  {
    var parts, m := Split(text, ','), Reported(text);
    ReportedIsPlain(text);
    if AllPairs(m, keys) == parts[1..] {
      PairsOneEach(m, keys);
      assert forall i :: 0 <= i < |parts[2..]| ==> parts[2..][i] == parts[1..][i + 1];
      CountOneEach(parts[2..]);
      PairsCount(m, keys);
      ParsedCount(parts[2..], keys);
    }
  }

  /** When a mapping that was set back to the one reported is recognised: only if the
      type is itself a text of at least two parts, which begin with the guid, and the
      remaining parts are the pairs in the order they are printed in. */
  lemma ManualResetNoticedIff(text: string, kind: string, keys: seq<string>)
    requires |Split(text, ',')| >= 2 && Enumerates(keys, Reported(text))
    ensures var parts, k := Split(text, ','), |Split(kind, ',')|;
            Printed(kind, Reported(text), keys) == text <==>
            2 <= k <= |parts| && Split(kind, ',') == parts[..k] && AllPairs(Reported(text), keys) == parts[k..]
  {
    var parts, first, m := Split(text, ','), Split(kind, ','), Reported(text);
    ReportedIsPlain(text);
    PrintedSplits(kind, m, keys);
    if Printed(kind, m, keys) == text {
      assert parts[..|first|] == first && parts[|first|..] == AllPairs(m, keys);
      if |first| == 1 {
        PairsAreFewer(text, keys);
      }
    }
    if |first| <= |parts| && first == parts[..|first|] && AllPairs(m, keys) == parts[|first|..] {
      assert Split(Printed(kind, m, keys), ',') == parts;
      JoinedSplit(text, ',');
      JoinedSplit(Printed(kind, m, keys), ',');
    }
  }

  /** With a type that has no comma, a mapping that was set back is never recognised. */
  lemma ManualResetNeverNoticed(text: string, kind: string, keys: seq<string>)
    requires |Split(text, ',')| >= 2 && Enumerates(keys, Reported(text)) && Free(kind, ',')
    ensures Printed(kind, Reported(text), keys) != text
  {
    SplitFree(kind, ',');
    ManualResetNoticedIff(text, kind, keys);
  }

  const EXAMPLE: string := "g,*,a:b"

  lemma ExampleParts()
    ensures Split(EXAMPLE, ',') == ["g", "*", "a:b"]
  {
    SplitFree("a:b", ',');
    SplitHead("*", "a:b", ',');
    SplitHead("g", "*,a:b", ',');
    assert "*" + [','] + "a:b" == "*,a:b" && "g" + [','] + "*,a:b" == EXAMPLE;
  }

  lemma ExampleReported()
    ensures Reported(EXAMPLE) == map["a" := ["b"]]
  {
    ExampleParts();
    assert ["g", "*", "a:b"][2..] == ["a:b"];
    var none: Buttons := map[];
    AddOnePair(none, "a", "b");
    assert "a" + ":" + "b" == "a:b";
    assert ListOf(none, "a") + ["b"] == ["b"];
  }

  /** A type with a comma can be recognised: that of a controller whose type text is the
      guid and the asterisk that asks for it. */
  lemma ManualResetCanBeNoticed()
    ensures Reported(EXAMPLE) == map["a" := ["b"]] && Printed("g,*", map["a" := ["b"]], ["a"]) == EXAMPLE
  {
    ExampleReported();
    assert ["b"][1..] == [] && ["a"][1..] == [];
    assert "a" + ":" + "b" == "a:b";
    assert AllPairs(map["a" := ["b"]], ["a"]) == ["a:b"];
    assert (["g,*"] + ["a:b"])[1..] == ["a:b"];
    assert Joined(["g,*"] + ["a:b"], ',') == "g,*" + [','] + "a:b";
    assert "g,*" + [','] + "a:b" == EXAMPLE;
  }
}
