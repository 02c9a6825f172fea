/** The FaderPort button registry: the fixed table of buttons and the two
    lookups over it, by (case-insensitive, alias-aware) name and by the MIDI
    note a button sends when pressed. */
module Buttons {
  import opened Wrappers
  import opened Ascii
  import opened Midi

  /** A physical button: its label, the note it sends when pressed or
      released, and the note that drives its light. */
  datatype Button = Button(name: string, press: Data7, light: Data7)

  /** The failure of a name lookup (Python's `KeyError`), carrying the
      canonicalised key that was missing. */
  datatype LookupError = KeyError(key: string)

  /** Every button, ordered to "snake" from the top of the device down. */
  const BUTTONS: seq<Button> := [
    Button("Mute", 18, 21),
    Button("Solo", 17, 22),
    Button("Rec", 16, 23),
    Button("Output", 22, 17),
    Button("Chan Up", 21, 18),
    Button("Bank", 20, 19),
    Button("Chan Down", 19, 20),
    Button("Read", 10, 13),
    Button("Write", 9, 14),
    Button("Touch", 8, 15),
    Button("Off", 23, 16),
    Button("Undo", 14, 9),
    Button("Trns", 13, 10),
    Button("Proj", 12, 11),
    Button("Mix", 11, 12),
    Button("Shift", 2, 5),
    Button("Punch", 1, 6),
    Button("User", 0, 7),
    Button("Loop", 15, 8),
    Button("Record", 7, 0),
    Button("Play", 6, 1),
    Button("Stop", 5, 2),
    Button("Fast Fwd", 4, 3),
    Button("Rewind", 3, 4)
  ]

  const BUTTON_COUNT: nat := 24

  /** The one extra name the registry answers to. */
  const ALIAS: string := "Rec Arm"

  /** The button the alias stands for. */
  const ALIASED: string := "Rec"

  function NameOf(b: Button): string { b.name }

  function PressOf(b: Button): int { b.press }

  /** Looking `k` up in the dictionary `{key(x): x for x in bs}`: since later
      entries overwrite earlier ones, the answer is the last entry with that
      key, or None when there is none. */
  function Lookup<K(==)>(bs: seq<Button>, key: Button -> K, k: K): (r: Option<Button>)
    ensures r.Some? ==> r.value in bs && key(r.value) == k
    ensures r.None? <==> forall b :: b in bs ==> key(b) != k
    decreases |bs|
  {
    if |bs| == 0 then None
    else if key(bs[|bs| - 1]) == k then Some(bs[|bs| - 1])
    else
      assert forall b :: b in bs ==> b in bs[..|bs| - 1] || b == bs[|bs| - 1];
      Lookup(bs[..|bs| - 1], key, k)
  }

  /** For each press code p in 0..23, the position in BUTTONS of the button
      that sends p: the inverse of the press column. */
  const PRESS_POSITION: seq<nat> :=
    [17, 16, 15, 23, 22, 21, 20, 19, 9, 8, 7, 14, 13, 12, 11, 18, 2, 1, 0, 6, 5, 4, 3, 10]

  /** For each light code l in 0..23, the position in BUTTONS of the button
      whose light is l: the inverse of the light column. */
  const LIGHT_POSITION: seq<nat> :=
    [19, 20, 21, 22, 23, 15, 16, 17, 18, 11, 12, 13, 14, 7, 8, 9, 10, 3, 4, 5, 6, 0, 1, 2]

  /** PRESS_POSITION undoes the press column. */
  lemma PressPositionLeftInverse()
    ensures forall i :: 0 <= i < |BUTTONS| ==>
      BUTTONS[i].press < BUTTON_COUNT && PRESS_POSITION[BUTTONS[i].press] == i
  {
  }

  /** The press column undoes PRESS_POSITION. */
  lemma PressPositionRightInverse()
    ensures forall p :: 0 <= p < BUTTON_COUNT ==> BUTTONS[PRESS_POSITION[p]].press == p
  {
  }

  /** LIGHT_POSITION undoes the light column. */
  lemma LightPositionLeftInverse()
    ensures forall i :: 0 <= i < |BUTTONS| ==>
      BUTTONS[i].light < BUTTON_COUNT && LIGHT_POSITION[BUTTONS[i].light] == i
  {
  }

  /** The light column undoes LIGHT_POSITION. */
  lemma LightPositionRightInverse()
    ensures forall l :: 0 <= l < BUTTON_COUNT ==> BUTTONS[LIGHT_POSITION[l]].light == l
  {
  }

  /** Press codes are a permutation of 0..23: each in range, every code in
      0..23 used, and no code used twice. */
  lemma PressCodesArePermutation()
    ensures |BUTTONS| == BUTTON_COUNT
    ensures forall i :: 0 <= i < |BUTTONS| ==> BUTTONS[i].press < BUTTON_COUNT
    ensures forall p :: 0 <= p < BUTTON_COUNT ==> BUTTONS[PRESS_POSITION[p]].press == p
    ensures forall i, j :: 0 <= i < j < |BUTTONS| ==> BUTTONS[i].press != BUTTONS[j].press
  {
    PressPositionLeftInverse();
    PressPositionRightInverse();
  }

  /** Light codes are a permutation of 0..23 in the same sense. */
  lemma LightCodesArePermutation()
    ensures |BUTTONS| == BUTTON_COUNT
    ensures forall i :: 0 <= i < |BUTTONS| ==> BUTTONS[i].light < BUTTON_COUNT
    ensures forall l :: 0 <= l < BUTTON_COUNT ==> BUTTONS[LIGHT_POSITION[l]].light == l
    ensures forall i, j :: 0 <= i < j < |BUTTONS| ==> BUTTONS[i].light != BUTTONS[j].light
  {
    LightPositionLeftInverse();
    LightPositionRightInverse();
  }

  /** No two buttons share a name. */
  lemma NamesAreDistinct()
    ensures forall i, j :: 0 <= i < j < |BUTTONS| ==> BUTTONS[i].name != BUTTONS[j].name
  {
  }

  /** The alias is not itself a button name. */
  lemma AliasIsNoButtonName()
    ensures forall b :: b in BUTTONS ==> b.name != ALIAS
  {
  }

  /** The alias stands for a button of the table. */
  lemma AliasedIsAButton()
    ensures BUTTONS[2] in BUTTONS && NameOf(BUTTONS[2]) == ALIASED
  {
  }

  /** `button_from_press`: look the note up in `{x.press: x for x in
      BUTTONS}`; None for a note no button sends (the fader-touch note 127
      among them). */
  function ButtonFromPress(press: int): (r: Option<Button>)
    ensures r.Some? ==> r.value in BUTTONS && r.value.press == press
    ensures r.None? <==> forall b :: b in BUTTONS ==> b.press != press
  {
    Lookup(BUTTONS, PressOf, press)
  }

  /** `button_from_name`: canonicalise the name with `title()` and look it up
      in `{x.name: x for x in BUTTONS}` extended with the alias, whose entry
      is a copy of the one for "Rec". A name that is neither a button's nor
      the alias fails with the canonical key. */
  function ButtonFromName(name: string): (r: Result<Button, LookupError>)
    ensures r.Ok? ==> r.value in BUTTONS
    ensures r.Ok? && Title(name) != ALIAS ==> r.value.name == Title(name)
    ensures r.Ok? && Title(name) == ALIAS ==> r.value.name == ALIASED
    ensures r.Err? ==> Title(name) != ALIAS && forall b :: b in BUTTONS ==> b.name != Title(name)
    ensures r.Err? ==> r.error == KeyError(Title(name))
  {
    var key := Title(name);
    var entry := if key == ALIAS then ALIASED else key;
    match Lookup(BUTTONS, NameOf, entry)
    case Some(b) => Ok(b)
    case None =>
      AliasedIsAButton();
      Err(KeyError(key))
  }

  /** The labels of the first six buttons are in title case. */
  lemma FirstQuarterNamesAreTitled()
    ensures forall i :: 0 <= i < 6 ==> Title(BUTTONS[i].name) == BUTTONS[i].name
  {
  }

  /** The labels of the second six buttons are in title case. */
  lemma SecondQuarterNamesAreTitled()
    ensures forall i :: 6 <= i < 12 ==> Title(BUTTONS[i].name) == BUTTONS[i].name
  {
  }

  /** The labels of the third six buttons are in title case. */
  lemma ThirdQuarterNamesAreTitled()
    ensures forall i :: 12 <= i < 18 ==> Title(BUTTONS[i].name) == BUTTONS[i].name
  {
  }

  /** The labels of the fourth six buttons are in title case. */
  lemma FourthQuarterNamesAreTitled()
    ensures forall i :: 18 <= i < BUTTON_COUNT ==> Title(BUTTONS[i].name) == BUTTONS[i].name
  {
  }

  /** Every button label is already in title case. */
  lemma NamesAreTitled()
    ensures forall b :: b in BUTTONS ==> Title(b.name) == b.name
  {
    FirstQuarterNamesAreTitled();
    SecondQuarterNamesAreTitled();
    ThirdQuarterNamesAreTitled();
    FourthQuarterNamesAreTitled();
  }

  /** The alias is already in title case. */
  lemma AliasIsTitled()
    ensures Title(ALIAS) == ALIAS
  {
  }

  /** Where a button sits in BUTTONS. */
  lemma PositionOf(b: Button) returns (i: nat)
    requires b in BUTTONS
    ensures i < |BUTTONS| && BUTTONS[i] == b
  {
    i :| 0 <= i < |BUTTONS| && BUTTONS[i] == b;
  }

  /** A press code identifies at most one button. */
  lemma PressIdentifies(a: Button, b: Button)
    requires a in BUTTONS && b in BUTTONS && a.press == b.press
    ensures a == b
  {
    var i := PositionOf(a);
    var j := PositionOf(b);
    PressPositionLeftInverse();
    assert i == PRESS_POSITION[a.press] == j;
  }

  /** A name identifies at most one button. */
  lemma NameIdentifies(a: Button, b: Button)
    requires a in BUTTONS && b in BUTTONS && a.name == b.name
    ensures a == b
  {
    var i := PositionOf(a);
    var j := PositionOf(b);
    NamePositionIdentifies(i, j);
  }

  /** Two positions holding the same label are the same position. */
  lemma NamePositionIdentifies(i: int, j: int)
    requires 0 <= i < |BUTTONS| && 0 <= j < |BUTTONS|
    requires BUTTONS[i].name == BUTTONS[j].name
    ensures i == j
  {
    NamesAreDistinct();
    assert !(i < j) && !(j < i);
  }

  /** Looking a button up by its own press code returns that button. */
  lemma PressRoundTrip(b: Button)
    requires b in BUTTONS
    ensures ButtonFromPress(b.press) == Some(b)
  {
    PressIdentifies(ButtonFromPress(b.press).value, b);
  }

  /** Exactly the codes 0..23 name a button; every other note, the
      fader-touch note 127 included, yields None. */
  lemma PressLookupDomain(p: int)
    ensures ButtonFromPress(p).Some? <==> 0 <= p < BUTTON_COUNT
  {
    PressCodesArePermutation();
    if 0 <= p < BUTTON_COUNT {
      assert BUTTONS[PRESS_POSITION[p]] in BUTTONS;
    } else {
      forall b | b in BUTTONS
        ensures b.press != p
      {
        var i :| 0 <= i < |BUTTONS| && BUTTONS[i] == b;
      }
    }
  }

  /** Looking a button up by its own name returns that button. */
  lemma NameRoundTrip(b: Button)
    requires b in BUTTONS
    ensures ButtonFromName(b.name) == Ok(b)
  {
    assert Title(b.name) == b.name by { NamesAreTitled(); }
    assert b.name != ALIAS by { AliasIsNoButtonName(); }
    var r := ButtonFromName(b.name);
    assert r.Ok?;
    NameIdentifies(r.value, b);
  }

  /** Any spelling of the alias resolves to the same button as "Rec". */
  lemma AliasResolves(name: string)
    requires Lower(name) == "rec arm"
    ensures ButtonFromName(name) == ButtonFromName(ALIASED) == Ok(BUTTONS[2])
  {
    assert Title(name) == ALIAS by {
      TitleIgnoresCase(name);
    }
    assert BUTTONS[2].name == ALIASED;
    NameRoundTrip(BUTTONS[2]);
  }

  /** A name lookup fails exactly when the canonical name is neither the
      alias nor any button's label. */
  lemma NameLookupFails(name: string)
    ensures ButtonFromName(name).Err? <==>
      Title(name) != ALIAS && forall b :: b in BUTTONS ==> b.name != Title(name)
  {
    var r := ButtonFromName(name);
    if r.Ok? && Title(name) != ALIAS {
      assert r.value in BUTTONS && r.value.name == Title(name);
    }
  }

  /** Name lookup ignores case. */
  lemma NameLookupIgnoresCase(name: string)
    ensures ButtonFromName(Lower(name)) == ButtonFromName(name)
    ensures ButtonFromName(Upper(name)) == ButtonFromName(name)
  {
    TitleIgnoresCase(name);
  }

  /** The registry round trip: name to button to press code to button. */
  lemma RegistryRoundTrip(name: string)
    requires ButtonFromName(name).Ok?
    ensures ButtonFromPress(ButtonFromName(name).value.press) == Some(ButtonFromName(name).value)
  {
    PressRoundTrip(ButtonFromName(name).value);
  }
}
