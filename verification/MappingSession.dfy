/** The mapping dialog's state: a mapping is parsed, edited, applied and dropped. */
module MappingSession {
  import opened MappingText
  import opened MappingEditor
  import opened MappingReset

  lemma {:induction false} JoinedAppend(parts: seq<string>, x: string, sep: char)
    requires |parts| > 0
    ensures Joined(parts + [x], sep) == Joined(parts, sep) + [sep] + x
  {
    if |parts| == 1 {
      assert (parts + [x])[1..] == [x];
    } else {
      JoinedAppend(parts[1..], x, sep);
      assert (parts + [x])[1..] == parts[1..] + [x];
    }
  }

  lemma {:induction false} PairsAppend(key: string, inputs: seq<string>, x: string)
    ensures Pairs(key, inputs + [x]) == Pairs(key, inputs) + [key + ":" + x]
  {
    if inputs == [] {
      assert (inputs + [x])[1..] == [];
    } else {
      PairsAppend(key, inputs[1..], x);
      assert (inputs + [x])[1..] == inputs[1..] + [x];
    }
  }

  lemma {:induction false} AllPairsAppend(m: Buttons, keys: seq<string>, key: string)
    requires (forall k :: k in keys ==> k in m) && key in m
    ensures AllPairs(m, keys + [key]) == AllPairs(m, keys) + Pairs(key, m[key])
  {
    if keys == [] {
      assert (keys + [key])[1..] == [];
    } else {
      AllPairsAppend(m, keys[1..], key);
      assert (keys + [key])[1..] == keys[1..] + [key];
      var first, rest, last := Pairs(keys[0], m[keys[0]]), AllPairs(m, keys[1..]), Pairs(key, m[key]);
      assert first + (rest + last) == first + rest + last;
    }
  }

  function KindOf(part: string, controllerKind: string): string {
    if part != "*" then part else if controllerKind != "" then controllerKind else "Unidentified Controller"
  }

  lemma EditLaws(m: Maps, b: Button, input: string, index: nat)
    requires Inverse(m)
    ensures var t := Edit(m, Name(b), input, index);
            "" !in m.buttons ==> Inverse(t) && "" !in t.buttons
    ensures var t := Edit(m, Name(b), input, index);
            if Name(b) == ButtonOf(m, input) then t == m else Edited(m, t, Name(b), input, index)
  {
    NameIsButton(b);
    EditIs(m, Name(b), input, index);
    if "" !in m.buttons {
      EditKeepsInverse(m, Name(b), input, index);
    }
  }

  class Session {
    var inProgress: bool
    var altered: bool
    var isDefault: bool
    var guid: string
    var vidPid: string
    var kind: string
    var buttons: Buttons
    var applied: Buttons
    var physical: map<string, string>
    /** What each controller reported first, by guid. */
    var originals: map<string, string>
    /** The user's mappings by vendor and product, and the guids still to receive them. */
    var settings: map<string, string>
    var guidsToUpdate: map<string, seq<string>>

    /** The altered flag holds exactly when the mapping differs from the applied one;
        without a mapping in progress there is nothing. */
    ghost predicate Valid()
      reads this
    {
      && (altered <==> buttons != applied)
      && (!inProgress ==> buttons == map[] && applied == map[] && physical == map[])
    }

    ghost function View(): Maps
      reads this
    {
      Maps(buttons, physical)
    }

    constructor ()
      ensures Valid() && !inProgress && originals == map[] && settings == map[] && guidsToUpdate == map[]
    {
      inProgress, altered, isDefault := false, false, false;
      guid, vidPid, kind := "", "", "";
      buttons, applied, physical, originals := map[], map[], map[], map[];
      settings, guidsToUpdate := map[], map[];
    }

    /** Opens the mapping a controller reports. */
    method Open(text: string, controllerVidPid: string, controllerKind: string) returns (started: bool)
      requires Valid()
      modifies this
      ensures Valid() && settings == old(settings) && guidsToUpdate == old(guidsToUpdate)
      ensures started <==> !old(inProgress) && text != "" && |Split(text, ',')| >= 2
      ensures inProgress <==> started || old(inProgress)
      ensures !started ==>
                unchanged(this)
      ensures started ==> var parts := Split(text, ',');
                         && View() == Parsed(parts[2..]) && !altered
                         && guid == parts[0] && vidPid == controllerVidPid
                         && kind == (if parts[1] != "*" then parts[1] else if controllerKind != "" then controllerKind
                                     else "Unidentified Controller")
                         && originals ==
                              (if guid in old(originals) then old(originals) else old(originals)[guid := text])
                         && isDefault == (old(isDefault) || guid !in old(originals))
    {
      if inProgress || text == "" {
        return false;
      }
      var parts := Split(text, ',');
      if |parts| < 2 {
        return false;
      }
      Accept(parts, text, controllerVidPid, controllerKind);
      started := true;
    }

    method Accept(parts: seq<string>, text: string, controllerVidPid: string, controllerKind: string)
      requires Valid() && !inProgress && |parts| >= 2
      modifies this`inProgress, this`isDefault, this`guid, this`vidPid, this`kind
      modifies this`buttons, this`applied, this`physical, this`originals
      ensures Valid() && inProgress
      ensures View() == Parsed(parts[2..]) && !altered
      ensures guid == parts[0] && vidPid == controllerVidPid && kind == KindOf(parts[1], controllerKind)
      ensures originals == (if guid in old(originals) then old(originals) else old(originals)[guid := text])
      ensures isDefault == (old(isDefault) || guid !in old(originals))
    {
      Remember(parts[0], text);
      vidPid, kind := controllerVidPid, KindOf(parts[1], controllerKind);
      Parse(parts[2..]);
      applied, inProgress := buttons, true;
    }

    /** The first mapping a controller reports is its original one. */
    method Remember(id: string, text: string)
      modifies this`guid, this`isDefault, this`originals
      ensures guid == id && isDefault == (old(isDefault) || guid !in old(originals))
      ensures originals == if guid in old(originals) then old(originals) else old(originals)[guid := text]
    {
      guid := id;
      if guid !in originals {
        isDefault := true;
        originals := originals[guid := text];
      }
    }

    method Parse(parts: seq<string>)
      requires buttons == map[] && physical == map[]
      modifies this`buttons, this`physical
      ensures View() == Parsed(parts)
    {
      assert parts[..0] == [];
      for i := 0 to |parts|
        modifies this`buttons, this`physical
        invariant View() == Parsed(parts[..i])
      {
        assert parts[..i + 1][..i] == parts[..i];
        var fields := Split(parts[i], ':');
        if |fields| < 2 {
          continue;
        }
        var key, list := fields[0], fields[1..];
        if key in buttons {
          list := buttons[key] + list;
        }
        assert list == ListOf(buttons, key) + fields[1..];
        buttons := buttons[key := list];
        if key != "crc" && key != "platform" && key != "type" && key != "hint" && !("sdk" <= key) {
          AssignAll(list, key);
        }
      }
      assert parts[..|parts|] == parts;
    }

    method AssignAll(list: seq<string>, key: string)
      modifies this`physical
      ensures physical == Assign(old(physical), list, key)
    {
      for j := 0 to |list|
        modifies this`physical
        invariant physical == Assign(old(physical), list[..j], key)
      {
        assert list[..j + 1][..j] == list[..j];
        physical := physical[list[j] := key];
      }
      assert list[..|list|] == list;
    }

    /** Gives an input to a button. From inverse maps on, what that does to each list is
        told by `Edited`; giving it to the button it triggers does nothing. */
    method UpdateButton(b: Button, input: string, index: nat)
      requires Valid() && inProgress
      modifies this`buttons, this`physical, this`altered
      ensures Valid() && View() == Edit(old(View()), Name(b), input, index)
      ensures old(Inverse(View())) && "" !in old(buttons) ==> Inverse(View()) && "" !in buttons
      ensures old(Inverse(View())) ==>
                if Name(b) == ButtonOf(old(View()), input) then View() == old(View())
                else Edited(old(View()), View(), Name(b), input, index)
    {
      if Inverse(View()) {
        EditLaws(View(), b, input, index);
      }
      var button := Name(b);
      var owner := if input in physical then physical[input] else "";
      if button == owner {
        return;
      }
      if owner != "" {
        Detach(owner, input);
      }
      Attach(button, input, index);
      altered := buttons != applied;
    }

    method Detach(owner: string, input: string)
      requires owner != ""
      modifies this`buttons
      ensures buttons == Detached(old(buttons), owner, input)
    {
      var list := ListOf(buttons, owner);
      if |list| > 1 {
        buttons := buttons[owner := RemoveOne(list, input)];
      } else {
        buttons := buttons - {owner};
      }
    }

    method Attach(button: string, input: string, index: nat)
      modifies this`buttons, this`physical
      ensures View() == Attached(old(View()), button, input, index)
    {
      var list := ListOf(buttons, button);
      if index < |list| {
        physical := physical[list[index] := ""];
        list := list[..index] + list[index + 1..];
      }
      list := if index == 0 then [input] + list else list + [input];
      buttons := buttons[button := list];
      physical := physical[input := button];
    }

    /** The text of the mapping, the buttons visited in the order of `keys`. */
    method Text(keys: seq<string>) returns (text: string)
      requires Enumerates(keys, buttons)
      ensures text == Printed(kind, buttons, keys)
    {
      text := kind;
      assert keys[..0] == [];
      for i := 0 to |keys|
        invariant text == Printed(kind, buttons, keys[..i])
      {
        var key := keys[i];
        ghost var printed := [kind] + AllPairs(buttons, keys[..i]);
        var inputs := buttons[key];
        assert printed + Pairs(key, inputs[..0]) == printed;
        for j := 0 to |inputs|
          invariant text == Joined(printed + Pairs(key, inputs[..j]), ',')
        {
          PairsAppend(key, inputs[..j], inputs[j]);
          assert inputs[..j + 1] == inputs[..j] + [inputs[j]];
          JoinedAppend(printed + Pairs(key, inputs[..j]), key + ":" + inputs[j], ',');
          assert printed + Pairs(key, inputs[..j + 1]) == printed + Pairs(key, inputs[..j]) + [key + ":" + inputs[j]];
          text := text + "," + (key + ":" + inputs[j]);
        }
        assert inputs[..|inputs|] == inputs;
        AllPairsAppend(buttons, keys[..i], key);
        assert keys[..i + 1] == keys[..i] + [key];
        assert [kind] + AllPairs(buttons, keys[..i + 1]) == printed + Pairs(key, inputs);
      }
      assert keys[..|keys|] == keys;
    }

    /** The buttons are those of the text the controller reported first. */
    ghost predicate SetBack()
      reads this
    {
      guid in originals && |Split(originals[guid], ',')| >= 2 && buttons == Reported(originals[guid])
    }

    /** A mapping equal to the controller's own is dropped from the settings, any
        other is saved and queued for this controller. One that was set back is saved
        like any other, unless the controller's type has a comma in it. */
    method Apply(keys: seq<string>)
      requires Valid() && Enumerates(keys, buttons)
      modifies this`settings, this`guidsToUpdate
      ensures Valid()
      ensures var text := Printed(kind, buttons, keys);
              var queued := if vidPid in old(guidsToUpdate) then old(guidsToUpdate)[vidPid] else [];
              if text == (if guid in originals then originals[guid] else "") then
                settings == old(settings) - {vidPid} && guidsToUpdate == old(guidsToUpdate)
              else
                settings == old(settings)[vidPid := text] &&
                guidsToUpdate == old(guidsToUpdate)[vidPid := queued + [guid]]
      ensures SetBack() && Free(kind, ',') ==>
                settings == old(settings)[vidPid := Printed(kind, buttons, keys)] && vidPid in guidsToUpdate
    {
      if SetBack() && Free(kind, ',') {
        ManualResetNeverNoticed(originals[guid], kind, keys);
      }
      var text := Text(keys);
      var original := if guid in originals then originals[guid] else "";
      if text == original {
        settings := settings - {vidPid};
      } else {
        var guids := [];
        if vidPid in guidsToUpdate {
          guids := guids + guidsToUpdate[vidPid];
        }
        guids := guids + [guid];
        assert guids == (if vidPid in guidsToUpdate then guidsToUpdate[vidPid] else []) + [guid];
        guidsToUpdate := guidsToUpdate[vidPid := guids];
        settings := settings[vidPid := text];
      }
    }

    method Quit()
      requires Valid()
      modifies this`inProgress, this`altered, this`isDefault, this`guid, this`vidPid, this`kind
      modifies this`buttons, this`applied, this`physical
      ensures Valid() && !inProgress && !altered && !isDefault && View() == Maps(map[], map[]) && applied == map[]
      ensures guid == "" && vidPid == "" && kind == ""
      ensures originals == old(originals) && settings == old(settings) && guidsToUpdate == old(guidsToUpdate)
    {
      isDefault, altered := false, false;
      guid, vidPid, kind := "", "", "";
      buttons, applied, physical := map[], map[], map[];
      inProgress := false;
    }
  }

  /** Saving a plain mapping whose maps are inverse and opening what the controller
      then reports gives back the lists, with inverse maps again. */
  lemma SavedMappingReopens(guid: string, kind: string, m: Maps, keys: seq<string>)
    requires Free(guid, ',') && Free(kind, ',') && PlainMapping(m.buttons) && Enumerates(keys, m.buttons) && Inverse(m)
    ensures var parts := Split(guid + "," + Printed(kind, m.buttons, keys), ',');
            && |parts| >= 2 && parts[0] == guid && parts[1] == kind
            && Parsed(parts[2..]).buttons == m.buttons && Inverse(Parsed(parts[2..]))
  {
    MappingRoundTrip(guid, kind, m.buttons, keys);
    var parts := Split(guid + "," + Printed(kind, m.buttons, keys), ',')[2..];
    forall j, k, p | j in m.buttons && k in m.buttons && !Describes(j) && !Describes(k) &&
                     p in m.buttons[j] && p in m.buttons[k]
      ensures j == k
    {
      ListsDisjoint(m, j, k, p);
    }
    ProperListsDistinctInputs(parts);
    ParsedInverseIff(parts);
  }
}
