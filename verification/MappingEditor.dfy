/** The controller-mapping editor: which physical inputs trigger a button, which
    button an input triggers, and whether the mapping differs from the applied one. */
module MappingEditor {
  import opened MappingText

  datatype Maps = Maps(buttons: Buttons, physical: map<string, string>)

  datatype Button =
    | Cross | Moon | Box | Pyramid | DpadLeft | DpadRight | DpadUp | DpadDown
    | L1 | R1 | L3 | R3 | Options | Share | Touchpad | Ps | L2 | R2
    | LeftX | LeftY | RightX | RightY | Misc1

  function Name(b: Button): string {
    match b
    case Cross => "a"
    case Moon => "b"
    case Box => "x"
    case Pyramid => "y"
    case DpadLeft => "dpleft"
    case DpadRight => "dpright"
    case DpadUp => "dpup"
    case DpadDown => "dpdown"
    case L1 => "leftshoulder"
    case R1 => "rightshoulder"
    case L3 => "leftstick"
    case R3 => "rightstick"
    case Options => "start"
    case Share => "back"
    case Touchpad => "touchpad"
    case Ps => "guide"
    case L2 => "lefttrigger"
    case R2 => "righttrigger"
    case LeftX => "leftx"
    case LeftY => "lefty"
    case RightX => "rightx"
    case RightY => "righty"
    case Misc1 => "misc1"
  }

  /** The button an input triggers; empty when there is none. */
  function ButtonOf(m: Maps, input: string): string {
    if input in m.physical then m.physical[input] else ""
  }

  function RemoveOne(list: seq<string>, x: string): seq<string> {
    if list == [] then []
    else if list[0] == x then list[1..]
    else [list[0]] + RemoveOne(list[1..], x)
  }

  /** The lists once `input` has left the button `owner`. */
  function Detached(buttons: Buttons, owner: string, input: string): Buttons {
    if owner == "" then buttons
    else
      var list := ListOf(buttons, owner);
      if |list| > 1 then buttons[owner := RemoveOne(list, input)] else buttons - {owner}
  }

  function Without(list: seq<string>, index: nat): seq<string> {
    if index < |list| then list[..index] + list[index + 1..] else list
  }

  /** The input becomes the button's first or last one; the one at `index` is displaced
      and triggers nothing any more. */
  function Attached(m: Maps, button: string, input: string, index: nat): Maps {
    var list := ListOf(m.buttons, button);
    var physical := if index < |list| then m.physical[list[index] := ""] else m.physical;
    var rest := Without(list, index);
    Maps(m.buttons[button := if index == 0 then [input] + rest else rest + [input]], physical[input := button])
  }

  /** `updateButton`: nothing happens to an input that triggers the button already. */
  function Edit(m: Maps, button: string, input: string, index: nat): Maps {
    var owner := ButtonOf(m, input);
    if button == owner then m
    else Attached(m.(buttons := Detached(m.buttons, owner, input)), button, input, index)
  }

  ghost predicate Distinct(list: seq<string>) {
    forall i, j :: 0 <= i < j < |list| ==> list[i] != list[j]
  }

  ghost predicate ListsProper(b: Buttons) {
    forall k :: k in b && !Describes(k) ==> b[k] != [] && Distinct(b[k])
  }

  /** An input is in a button's list exactly when the reverse map names that button. */
  ghost predicate Inverse(m: Maps) {
    ListsProper(m.buttons) && Agree(m) && NamesButtons(m)
  }

  ghost predicate Agree(m: Maps) {
    forall k, p :: k in m.buttons && !Describes(k) ==> (p in m.buttons[k] <==> p in m.physical && m.physical[p] == k)
  }

  /** The reverse map names buttons that have a list; an empty name says that the
      input was displaced. */
  ghost predicate NamesButtons(m: Maps) {
    forall p :: p in m.physical && m.physical[p] != "" ==> m.physical[p] in m.buttons && !Describes(m.physical[p])
  }

  lemma NameIsButton(b: Button)
    ensures Name(b) != "" && !Describes(Name(b))
  {
    var n := Name(b);
    assert |n| < 3 || n[0] != 's' || n[1] != 'd';
    assert "sdk"[0] == 's' && "sdk"[1] == 'd';
    assert |n| > 0;
    if n[0] == 'c' || n[0] == 'p' || n[0] == 'h' {
      assert false;
    }
  }

  lemma {:induction false} RemoveOneDistinct(list: seq<string>, x: string)
    requires Distinct(list)
    ensures Distinct(RemoveOne(list, x))
    ensures forall p :: p in RemoveOne(list, x) <==> p in list && p != x
    ensures x in list ==> |RemoveOne(list, x)| == |list| - 1
  {
    if list == [] {
    } else if list[0] == x {
    } else {
      RemoveOneDistinct(list[1..], x);
      var r := RemoveOne(list[1..], x);
      forall i | 0 <= i < |r| ensures r[i] != list[0] {
        assert r[i] in r;
      }
    }
  }

  lemma WithoutDistinct(list: seq<string>, index: nat)
    requires Distinct(list)
    ensures Distinct(Without(list, index))
    ensures forall p :: p in Without(list, index) <==> p in list && !(index < |list| && p == list[index])
  {
    if index < |list| {
      var r := Without(list, index);
      assert forall i :: 0 <= i < |r| ==> r[i] == list[if i < index then i else i + 1];
      forall p | p in list && p != list[index] ensures p in r {
        StaysWithout(list, index, p);
      }
    }
  }

  lemma StaysWithout(list: seq<string>, index: nat, p: string)
    requires index < |list| && p in list && p != list[index]
    ensures p in Without(list, index)
  {
    var i :| 0 <= i < |list| && list[i] == p;
    assert Without(list, index)[if i < index then i else i - 1] == p;
  }

  /** Taking an input from its button leaves proper lists that lack exactly it. */
  lemma DetachedLists(m: Maps, input: string)
    requires Inverse(m)
    ensures var b := Detached(m.buttons, ButtonOf(m, input), input);
            && ListsProper(b)
            && (forall k, p :: k in b && !Describes(k) ==>
                  (p in b[k] <==> p in m.physical && m.physical[p] == k && (p != input || k == "")))
            && (forall k :: k in b ==> k in m.buttons)
            && (forall k :: k in m.buttons && k !in b ==> k == ButtonOf(m, input) && m.buttons[k] == [input])
  {
    var owner := ButtonOf(m, input);
    if owner != "" {
      var list := m.buttons[owner];
      assert input in list;
      RemoveOneDistinct(list, input);
    }
  }

  lemma EditKeepsInverse(m: Maps, button: string, input: string, index: nat)
    requires Inverse(m) && button != "" && !Describes(button) && "" !in m.buttons
    ensures Inverse(Edit(m, button, input, index)) && "" !in Edit(m, button, input, index).buttons
  {
    if button != ButtonOf(m, input) {
      DetachedLists(m, input);
      EditedLists(m, button, input, index);
      EditedAgree(m, button, input, index);
      assert NamesButtons(Edit(m, button, input, index));
    }
  }

  lemma EditedLists(m: Maps, button: string, input: string, index: nat)
    requires Inverse(m) && button != ButtonOf(m, input) && !Describes(button)
    ensures ListsProper(Edit(m, button, input, index).buttons)
  {
    DetachedLists(m, input);
    var list := ListOf(Detached(m.buttons, ButtonOf(m, input), input), button);
    WithoutDistinct(list, index);
    assert input !in list;
  }

  lemma EditedAgree(m: Maps, button: string, input: string, index: nat)
    requires Inverse(m) && button != ButtonOf(m, input) && button != "" && !Describes(button) && "" !in m.buttons
    ensures Agree(Edit(m, button, input, index))
  {
    var t := Edit(m, button, input, index);
    forall k, p | k in t.buttons && !Describes(k)
      ensures p in t.buttons[k] <==> p in t.physical && t.physical[p] == k
    {
      if k == button {
        EditedAgreesHere(m, button, input, index, p);
      } else {
        EditedAgreesElsewhere(m, button, input, index, k, p);
      }
    }
  }

  lemma EditedAgreesHere(m: Maps, button: string, input: string, index: nat, p: string)
    requires Inverse(m) && button != ButtonOf(m, input) && button != "" && !Describes(button)
    ensures var t := Edit(m, button, input, index);
            p in t.buttons[button] <==> p in t.physical && t.physical[p] == button
  {
    DetachedLists(m, input);
    var list := ListOf(Detached(m.buttons, ButtonOf(m, input), input), button);
    WithoutDistinct(list, index);
  }

  lemma EditedAgreesElsewhere(m: Maps, button: string, input: string, index: nat, k: string, p: string)
    requires Inverse(m) && button != ButtonOf(m, input) && button != "" && !Describes(button) && "" !in m.buttons
    requires k != button && k in Edit(m, button, input, index).buttons && !Describes(k)
    ensures var t := Edit(m, button, input, index);
            p in t.buttons[k] <==> p in t.physical && t.physical[p] == k
  {
    DetachedLists(m, input);
    var b := Detached(m.buttons, ButtonOf(m, input), input);
    var list := ListOf(b, button);
    if index < |list| {
      assert list[index] in list && m.physical[list[index]] == button;
    }
    assert Edit(m, button, input, index).buttons[k] == b[k] && k != "";
  }

  // ----- what an edit does to the lists, place by place -----

  /** The button's new list: the input stands first if the index is 0 and last
      otherwise; of the others only the one at the index is gone, in unchanged order. */
  ghost predicate NewList(was: seq<string>, list: seq<string>, input: string, index: nat) {
    && |list| == (if index < |was| then |was| else |was| + 1)
    && list[if index == 0 then 0 else |list| - 1] == input
    && forall i: nat :: i < |was| && i != index ==> list[if 0 < index < i then i - 1 else i] == was[i]
  }

  /** The list without its element at place i; a list that had no other is gone. */
  ghost predicate LostAt(was: seq<string>, b: Buttons, owner: string, i: nat) {
    i < |was| &&
    if |was| == 1 then owner !in b else owner in b && b[owner] == was[..i] + was[i + 1..]
  }

  /** The former owner lost exactly this input. */
  ghost predicate LostOnly(m: Maps, t: Maps, owner: string, input: string) {
    exists i: nat :: LostAt(ListOf(m.buttons, owner), t.buttons, owner, i) && ListOf(m.buttons, owner)[i] == input
  }

  /** The input that stood at the index is in no list and triggers nothing. */
  ghost predicate Displaced(t: Maps, p: string) {
    ButtonOf(t, p) == "" && !Listed(t.buttons, p)
  }

  /** Every other list is as it was. */
  ghost predicate OtherListsKept(m: Maps, t: Maps, button: string, owner: string) {
    forall k :: k != button && (k == "" || k != owner) ==>
      (k in t.buttons <==> k in m.buttons) && (k in m.buttons ==> t.buttons[k] == m.buttons[k])
  }

  /** Every input but these triggers what it did. */
  ghost predicate OtherInputsKept(m: Maps, t: Maps, changed: set<string>) {
    forall p :: p !in changed ==>
      (p in t.physical <==> p in m.physical) && (p in m.physical ==> t.physical[p] == m.physical[p])
  }

  /** `t` is `m` after `input` was given to `button` in the place of its `index`-th. */
  ghost predicate Edited(m: Maps, t: Maps, button: string, input: string, index: nat) {
    var was, owner := ListOf(m.buttons, button), ButtonOf(m, input);
    && button in t.buttons && NewList(was, t.buttons[button], input, index)
    && input in t.physical && t.physical[input] == button
    && (index < |was| ==> was[index] in t.physical && Displaced(t, was[index]))
    && (owner != "" ==> LostOnly(m, t, owner, input))
    && OtherListsKept(m, t, button, owner)
    && OtherInputsKept(m, t, if index < |was| then {input, was[index]} else {input})
  }

  lemma NewListIs(was: seq<string>, input: string, index: nat)
    ensures var rest := Without(was, index);
            NewList(was, if index == 0 then [input] + rest else rest + [input], input, index)
  {
  }

  lemma {:induction false} RemoveOneAt(list: seq<string>, x: string) returns (i: nat)
    requires x in list
    ensures i < |list| && list[i] == x && RemoveOne(list, x) == list[..i] + list[i + 1..]
  {
    if list[0] == x {
      i := 0;
    } else {
      var j := RemoveOneAt(list[1..], x);
      i := j + 1;
      assert [list[0]] + (list[1..][..j] + list[1..][j + 1..]) == list[..i] + list[i + 1..];
    }
  }

  lemma LostByEdit(m: Maps, button: string, input: string, index: nat)
    requires Inverse(m) && button != ButtonOf(m, input) && ButtonOf(m, input) != ""
    ensures LostOnly(m, Edit(m, button, input, index), ButtonOf(m, input), input)
  {
    var owner := ButtonOf(m, input);
    var list := m.buttons[owner];
    assert input in list;
    var i := RemoveOneAt(list, input);
    assert LostAt(list, Edit(m, button, input, index).buttons, owner, i);
  }

  lemma DisplacedByEdit(m: Maps, button: string, input: string, index: nat)
    requires Inverse(m) && button != ButtonOf(m, input) && button != "" && !Describes(button)
    requires index < |ListOf(m.buttons, button)|
    ensures Displaced(Edit(m, button, input, index), ListOf(m.buttons, button)[index])
  {
    var list := m.buttons[button];
    var p := list[index];
    assert p in list && m.physical[p] == button;
    var t := Edit(m, button, input, index);
    forall k | k in t.buttons && !Describes(k) ensures p !in t.buttons[k] {
      NotListedAfterEdit(m, button, input, index, k);
    }
  }

  lemma NotListedAfterEdit(m: Maps, button: string, input: string, index: nat, k: string)
    requires Inverse(m) && button != ButtonOf(m, input) && button != "" && !Describes(button)
    requires index < |ListOf(m.buttons, button)| && k in Edit(m, button, input, index).buttons && !Describes(k)
    ensures ListOf(m.buttons, button)[index] !in Edit(m, button, input, index).buttons[k]
  {
    DetachedLists(m, input);
    var list := m.buttons[button];
    assert list[index] in list && m.physical[list[index]] == button;
    if k == button {
      WithoutDistinct(list, index);
    } else {
      assert Edit(m, button, input, index).buttons[k] == Detached(m.buttons, ButtonOf(m, input), input)[k];
    }
  }

  /** Every edit that changes something does this, in every inverse mapping; giving an
      input to the button it triggers changes nothing. */
  lemma EditIs(m: Maps, button: string, input: string, index: nat)
    requires Inverse(m) && button != "" && !Describes(button)
    ensures var t := Edit(m, button, input, index);
            if button == ButtonOf(m, input) then t == m else Edited(m, t, button, input, index)
  {
    if button != ButtonOf(m, input) {
      NewListByEdit(m, button, input, index);
      OthersByEdit(m, button, input, index);
      if index < |ListOf(m.buttons, button)| {
        DisplacedByEdit(m, button, input, index);
      }
      if ButtonOf(m, input) != "" {
        LostByEdit(m, button, input, index);
      }
    }
  }

  /** Only one result fits that description. */
  lemma EditedIsUnique(m: Maps, t: Maps, u: Maps, button: string, input: string, index: nat)
    requires Inverse(m) && button != ButtonOf(m, input)
    requires Edited(m, t, button, input, index) && Edited(m, u, button, input, index)
    ensures t == u
  {
    SameNewList(m, t, u, button, input, index);
    SameInputs(m, t, u, button, input, index);
    var owner := ButtonOf(m, input);
    if owner != "" {
      SameRest(m, t, u, owner, input);
    }
    forall k ensures k in t.buttons <==> k in u.buttons
             ensures k in t.buttons ==> t.buttons[k] == u.buttons[k] {
    }
    assert t.buttons == u.buttons;
  }

  lemma SameNewList(m: Maps, t: Maps, u: Maps, button: string, input: string, index: nat)
    requires Edited(m, t, button, input, index) && Edited(m, u, button, input, index)
    ensures t.buttons[button] == u.buttons[button]
  {
    var was, a, b := ListOf(m.buttons, button), t.buttons[button], u.buttons[button];
    forall j | 0 <= j < |a| ensures a[j] == b[j] {
      var i := if index == 0 then j else if j < index then j else j + 1;
      if i < |was| && i != index {
        assert a[if 0 < index < i then i - 1 else i] == was[i];
      }
    }
  }

  lemma SameInputs(m: Maps, t: Maps, u: Maps, button: string, input: string, index: nat)
    requires Edited(m, t, button, input, index) && Edited(m, u, button, input, index)
    ensures t.physical == u.physical
  {
    var was := ListOf(m.buttons, button);
    var changed := if index < |was| then {input, was[index]} else {input};
    forall p ensures p in t.physical <==> p in u.physical
             ensures p in t.physical ==> t.physical[p] == u.physical[p] {
      if p in changed && p != input {
        assert p == was[index];
      }
    }
  }

  lemma SameRest(m: Maps, t: Maps, u: Maps, owner: string, input: string)
    requires Inverse(m) && owner == ButtonOf(m, input) != ""
    requires LostOnly(m, t, owner, input) && LostOnly(m, u, owner, input)
    ensures owner in t.buttons <==> owner in u.buttons
    ensures owner in t.buttons ==> t.buttons[owner] == u.buttons[owner]
  {
    var list := m.buttons[owner];
    var i: nat :| LostAt(list, t.buttons, owner, i) && list[i] == input;
    var j: nat :| LostAt(list, u.buttons, owner, j) && list[j] == input;
    assert i == j;
  }

  lemma NewListByEdit(m: Maps, button: string, input: string, index: nat)
    requires button != ButtonOf(m, input)
    ensures var t := Edit(m, button, input, index);
            && button in t.buttons && NewList(ListOf(m.buttons, button), t.buttons[button], input, index)
            && input in t.physical && t.physical[input] == button
  {
    var was := ListOf(m.buttons, button);
    assert ListOf(Detached(m.buttons, ButtonOf(m, input), input), button) == was;
    NewListIs(was, input, index);
  }

  lemma OthersByEdit(m: Maps, button: string, input: string, index: nat)
    requires button != ButtonOf(m, input)
    ensures var t, was := Edit(m, button, input, index), ListOf(m.buttons, button);
            && OtherListsKept(m, t, button, ButtonOf(m, input))
            && OtherInputsKept(m, t, if index < |was| then {input, was[index]} else {input})
            && (index < |was| ==> was[index] in t.physical)
  {
    assert ListOf(Detached(m.buttons, ButtonOf(m, input), input), button) == ListOf(m.buttons, button);
  }

  // ----- sequences of edits -----

  datatype Change = Change(button: Button, input: string, index: nat)

  function Edits(m: Maps, changes: seq<Change>): Maps {
    if changes == [] then m
    else
      var c := changes[|changes| - 1];
      Edit(Edits(m, changes[..|changes| - 1]), Name(c.button), c.input, c.index)
  }

  lemma {:induction false} EditsKeepInverse(m: Maps, changes: seq<Change>)
    requires Inverse(m) && "" !in m.buttons
    ensures Inverse(Edits(m, changes)) && "" !in Edits(m, changes).buttons
  {
    if changes == [] {
    } else {
      var c := changes[|changes| - 1];
      EditsKeepInverse(m, changes[..|changes| - 1]);
      NameIsButton(c.button);
      EditKeepsInverse(Edits(m, changes[..|changes| - 1]), Name(c.button), c.input, c.index);
    }
  }

  /** Under the inverse, no input is in the lists of two buttons. */
  lemma ListsDisjoint(m: Maps, j: string, k: string, p: string)
    requires Inverse(m) && j in m.buttons && k in m.buttons && !Describes(j) && !Describes(k)
    requires p in m.buttons[j] && p in m.buttons[k]
    ensures j == k
  {
    assert m.physical[p] == j && m.physical[p] == k;
  }

  /** An input listed under an empty button name keeps that place when it is given
      to a button. */
  lemma EmptyNameBreaksInverse(m: Maps)
    requires Inverse(m) && "" in m.buttons
    ensures !Inverse(Edits(m, [Change(Cross, m.buttons[""][0], 0)]))
  {
    assert !Describes("");
    var x := m.buttons[""][0];
    var c := [Change(Cross, x, 0)];
    assert c[..0] == [] && Edits(m, c[..0]) == m;
    var t := Edit(m, Name(Cross), x, 0);
    assert Edits(m, c) == t;
    assert x in t.buttons[""] && t.physical[x] == "a";
  }

  /** The two maps stay inverse under every sequence of edits exactly when the
      mapping lists nothing under an empty button name. */
  lemma InverseForeverIff(m: Maps)
    requires Inverse(m)
    ensures (forall changes :: Inverse(Edits(m, changes))) <==> "" !in m.buttons
  {
    if "" in m.buttons {
      EmptyNameBreaksInverse(m);
    } else {
      forall changes ensures Inverse(Edits(m, changes)) {
        EditsKeepInverse(m, changes);
      }
    }
  }

  // ----- parsed mappings -----

  /** The physical inputs of the buttons, in text order. */
  function Inputs(parts: seq<string>): seq<string> {
    if parts == [] then []
    else
      Inputs(parts[..|parts| - 1]) + Added(parts[|parts| - 1])
  }

  function Parsed(parts: seq<string>): Maps {
    Maps(AddParts(map[], parts), AddPhysicals(parts))
  }

  lemma {:induction false} AssignOwns(physical: map<string, string>, inputs: seq<string>, key: string)
    ensures var r := Assign(physical, inputs, key);
            && (forall p :: p in r <==> p in physical || p in inputs)
            && (forall p :: p in r ==> r[p] == if p in inputs then key else physical[p])
  {
    if inputs == [] {
    } else {
      AssignOwns(physical, inputs[..|inputs| - 1], key);
      assert inputs == inputs[..|inputs| - 1] + [inputs[|inputs| - 1]];
    }
  }

  /** The keys of a text that name a button. */
  predicate NamesButton(key: string) {
    key !in {"crc", "platform", "type", "hint"} && !(|key| >= 3 && key[..3] == "sdk")
  }

  lemma NamesButtonIff(key: string)
    ensures NamesButton(key) <==> !Describes(key)
  {
    assert "sdk" <= key <==> |key| >= 3 && key[..3] == "sdk";
  }

  /** Whatever a text gives: every input listed for a button triggers one, and only a
      button it is listed for; what describes the controller is never triggered. */
  lemma {:induction false} ParsedTriggers(parts: seq<string>)
    ensures var m := Parsed(parts);
            && (forall k, p :: k in m.buttons && NamesButton(k) && p in m.buttons[k] ==> p in m.physical)
            && (forall p :: p in m.physical ==> NamesButton(m.physical[p]) && m.physical[p] in m.buttons &&
                                                p in m.buttons[m.physical[p]])
  {
    if parts == [] {
    } else {
      var n := |parts| - 1;
      ParsedTriggers(parts[..n]);
      PartTriggers(Parsed(parts[..n]), parts[n]);
    }
  }

  lemma PartTriggers(m: Maps, part: string)
    requires forall k, p :: k in m.buttons && NamesButton(k) && p in m.buttons[k] ==> p in m.physical
    requires forall p :: p in m.physical ==> NamesButton(m.physical[p]) && m.physical[p] in m.buttons &&
                                             p in m.buttons[m.physical[p]]
    ensures var t := Maps(AddPart(m.buttons, part), AddPhysical(m.physical, m.buttons, part));
            && (forall k, p :: k in t.buttons && NamesButton(k) && p in t.buttons[k] ==> p in t.physical)
            && (forall p :: p in t.physical ==> NamesButton(t.physical[p]) && t.physical[p] in t.buttons &&
                                                p in t.buttons[t.physical[p]])
  {
    var fields := Split(part, ':');
    if |fields| >= 2 {
      NamesButtonIff(fields[0]);
      AssignOwns(m.physical, ListOf(m.buttons, fields[0]) + fields[1..], fields[0]);
    }
  }

  lemma DistinctParts(a: seq<string>, b: seq<string>)
    ensures Distinct(a + b) <==> Distinct(a) && Distinct(b) && forall x :: x in a ==> x !in b
  {
    var s := a + b;
    assert forall i :: 0 <= i < |a| ==> s[i] == a[i];
    assert forall i :: 0 <= i < |b| ==> s[|a| + i] == b[i];
    if Distinct(s) {
      forall i, j | 0 <= i < j < |b| ensures b[i] != b[j] {
        assert s[|a| + i] != s[|a| + j];
      }
      forall x | x in a ensures x !in b {
        var i :| 0 <= i < |a| && a[i] == x;
        forall j | 0 <= j < |b| ensures b[j] != x {
          assert s[i] != s[|a| + j];
        }
      }
    }
    if Distinct(a) && Distinct(b) && forall x :: x in a ==> x !in b {
      forall i, j | 0 <= i < j < |s| ensures s[i] != s[j] {
        if i < |a| <= j {
          assert s[i] in a && s[j] == b[j - |a|];
        } else if |a| <= i {
          assert s[i] == b[i - |a|] && s[j] == b[j - |a|];
        }
      }
    }
  }

  /** The inputs one part of the text adds to a button. */
  function Added(part: string): seq<string> {
    var fields := Split(part, ':');
    if |fields| < 2 || Describes(fields[0]) then [] else fields[1..]
  }

  ghost predicate Listed(b: Buttons, p: string) {
    exists k :: k in b && !Describes(k) && p in b[k]
  }

  /** The inputs are the members of the lists. */
  lemma {:induction false} InputsAreListed(parts: seq<string>)
    ensures forall p :: p in Inputs(parts) <==> Listed(AddParts(map[], parts), p)
  {
    if parts == [] {
    } else {
      var n := |parts| - 1;
      InputsAreListed(parts[..n]);
      var before, after := AddParts(map[], parts[..n]), AddParts(map[], parts);
      forall p ensures p in Inputs(parts) <==> Listed(after, p) {
        AddPartLists(before, parts[n], p);
      }
    }
  }

  lemma AddPartLists(b: Buttons, part: string, p: string)
    ensures Listed(AddPart(b, part), p) <==> Listed(b, p) || p in Added(part)
  {
    var fields := Split(part, ':');
    var t := AddPart(b, part);
    if Listed(b, p) {
      var k :| k in b && !Describes(k) && p in b[k];
      assert k in t && p in t[k];
    }
    if p in Added(part) {
      assert p in t[fields[0]];
    }
    if Listed(t, p) {
      var k :| k in t && !Describes(k) && p in t[k];
      if |fields| < 2 || k != fields[0] {
        assert k in b && p in b[k];
      } else if p !in fields[1..] {
        assert k in b && p in b[k];
      }
    }
  }

  lemma {:induction false} DistinctInputsInverse(parts: seq<string>)
    requires Distinct(Inputs(parts))
    ensures Exact(Parsed(parts))
  {
    if parts == [] {
    } else {
      var n := |parts| - 1;
      DistinctParts(Inputs(parts[..n]), Added(parts[n]));
      DistinctInputsInverse(parts[..n]);
      InputsAreListed(parts[..n]);
      PartKeepsExact(Parsed(parts[..n]), parts[n]);
    }
  }

  lemma PartKeepsExact(m: Maps, part: string)
    requires Exact(m) && Distinct(Added(part))
    requires forall p :: Listed(m.buttons, p) ==> p !in Added(part)
    ensures Exact(Maps(AddPart(m.buttons, part), AddPhysical(m.physical, m.buttons, part)))
  {
    var fields := Split(part, ':');
    if |fields| >= 2 {
      if Describes(fields[0]) {
        assert AddPart(m.buttons, part) == m.buttons[fields[0] := ListOf(m.buttons, fields[0]) + fields[1..]];
      } else {
        assert |fields[1..]| > 0;
        AddPartInverse(m, fields[0], fields[1..]);
      }
    }
  }

  /** After parsing, every input in the reverse map has a list it stands in. */
  ghost predicate Exact(m: Maps) {
    ListsProper(m.buttons) && Agree(m) && AllListed(m)
  }

  ghost predicate AllListed(m: Maps) {
    forall p :: p in m.physical ==> m.physical[p] in m.buttons && !Describes(m.physical[p])
  }

  lemma AddPartInverse(m: Maps, key: string, added: seq<string>)
    requires Exact(m) && !Describes(key) && added != [] && Distinct(added)
    requires forall p :: Listed(m.buttons, p) ==> p !in added
    ensures Exact(Maps(m.buttons[key := ListOf(m.buttons, key) + added],
                       Assign(m.physical, ListOf(m.buttons, key) + added, key)))
  {
    AddedList(m.buttons, key, added);
    AddedAgree(m, key, added);
    AssignOwns(m.physical, ListOf(m.buttons, key) + added, key);
  }

  lemma AddedAgree(m: Maps, key: string, added: seq<string>)
    requires Exact(m) && !Describes(key)
    requires forall p :: Listed(m.buttons, p) ==> p !in added
    ensures Agree(Maps(m.buttons[key := ListOf(m.buttons, key) + added],
                       Assign(m.physical, ListOf(m.buttons, key) + added, key)))
  {
    var list := ListOf(m.buttons, key) + added;
    var t := Maps(m.buttons[key := list], Assign(m.physical, list, key));
    forall k, p | k in t.buttons && !Describes(k)
      ensures p in t.buttons[k] <==> p in t.physical && t.physical[p] == k
    {
      OwnersAfter(m, key, added, k, p);
    }
  }

  lemma AddedList(b: Buttons, key: string, added: seq<string>)
    requires ListsProper(b) && !Describes(key) && added != [] && Distinct(added)
    requires forall p :: Listed(b, p) ==> p !in added
    ensures ListsProper(b[key := ListOf(b, key) + added])
  {
    forall p | p in ListOf(b, key) ensures p !in added {
      assert Listed(b, p);
    }
    DistinctParts(ListOf(b, key), added);
  }

  lemma OwnersAfter(m: Maps, key: string, added: seq<string>, k: string, p: string)
    requires Exact(m) && !Describes(key) && !Describes(k) && (k == key || k in m.buttons)
    requires forall q :: Listed(m.buttons, q) ==> q !in added
    ensures var list := ListOf(m.buttons, key) + added;
            var r := Assign(m.physical, list, key);
            (if k == key then p in list else p in m.buttons[k]) <==> p in r && r[p] == k
  {
    var list := ListOf(m.buttons, key) + added;
    AssignOwns(m.physical, list, key);
    if p in list && p !in added {
      assert p in m.buttons[key];
      assert m.physical[p] == key;
    }
    if k != key && p in m.buttons[k] {
      assert Listed(m.buttons, p);
    }
  }

  /** A parsed mapping is inverse exactly when no physical input of a button occurs
      twice in its text. */
  lemma ParsedInverseIff(parts: seq<string>)
    ensures Inverse(Parsed(parts)) <==> Distinct(Inputs(parts))
  {
    if Distinct(Inputs(parts)) {
      DistinctInputsInverse(parts);
    }
    if Inverse(Parsed(parts)) {
      var m := Parsed(parts);
      forall j, k, p | j in m.buttons && k in m.buttons && !Describes(j) && !Describes(k) &&
                       p in m.buttons[j] && p in m.buttons[k]
        ensures j == k
      {
        ListsDisjoint(m, j, k, p);
      }
      ProperListsDistinctInputs(parts);
    }
  }

  /** No input stands in the lists of two buttons. */
  ghost predicate Apart(b: Buttons) {
    forall j, k, p :: j in b && k in b && !Describes(j) && !Describes(k) && p in b[j] && p in b[k] ==> j == k
  }

  lemma {:induction false} ProperListsDistinctInputs(parts: seq<string>)
    requires ListsProper(AddParts(map[], parts)) && Apart(AddParts(map[], parts))
    ensures Distinct(Inputs(parts))
  {
    if parts == [] {
    } else {
      var n := |parts| - 1;
      var before := AddParts(map[], parts[..n]);
      ListsNotEmpty(parts[..n]);
      PartOnlyGrows(before, parts[n]);
      ProperListsDistinctInputs(parts[..n]);
      InputsAreListed(parts[..n]);
      DistinctParts(Inputs(parts[..n]), Added(parts[n]));
    }
  }

  ghost predicate NoEmptyList(b: Buttons) {
    forall k :: k in b ==> |b[k]| > 0
  }

  lemma {:induction false} ListsNotEmpty(parts: seq<string>)
    ensures NoEmptyList(AddParts(map[], parts))
  {
    if parts == [] {
    } else {
      var n := |parts| - 1;
      ListsNotEmpty(parts[..n]);
      var fields := Split(parts[n], ':');
      assert |fields| >= 2 ==> |fields[1..]| > 0;
    }
  }

  /** Proper lists that stand apart were so before the part was added, and what it
      added was not listed yet. */
  lemma PartOnlyGrows(b: Buttons, part: string)
    requires NoEmptyList(b) && ListsProper(AddPart(b, part)) && Apart(AddPart(b, part))
    ensures ListsProper(b) && Apart(b) && Distinct(Added(part))
    ensures forall p :: Listed(b, p) ==> p !in Added(part)
  {
    var fields := Split(part, ':');
    var t := AddPart(b, part);
    if |fields| >= 2 {
      var key := fields[0];
      DistinctParts(ListOf(b, key), fields[1..]);
      forall k | k in b && !Describes(k) ensures Distinct(b[k]) {
        assert k != key ==> t[k] == b[k];
      }
      forall p | Listed(b, p) ensures p !in Added(part) {
        var k :| k in b && !Describes(k) && p in b[k];
        NewIsElsewhere(b, part, k, p);
      }
    }
  }

  lemma NewIsElsewhere(b: Buttons, part: string, k: string, p: string)
    requires ListsProper(AddPart(b, part)) && k in b && !Describes(k) && p in b[k]
    requires Apart(AddPart(b, part))
    ensures p !in Added(part)
  {
    var fields := Split(part, ':');
    var t := AddPart(b, part);
    assert k in t && p in t[k];
    if |fields| >= 2 && !Describes(fields[0]) {
      DistinctParts(ListOf(b, fields[0]), fields[1..]);
      assert fields[0] in t && forall q :: q in fields[1..] ==> q in t[fields[0]];
    }
  }
}
