/** The display effects `snake`, `blink` and `countdown`, as the light
    messages they send in order. The pauses between messages are not
    modelled. */
module Effects {
  import opened Midi
  import opened Buttons
  import opened Characters
  import opened FaderPort

  /** A sequence backwards (`reversed`). */
  function Reverse<T>(s: seq<T>): (r: seq<T>)
    ensures |r| == |s|
    ensures forall k :: 0 <= k < |s| ==> r[k] == s[|s| - 1 - k]
  {
    seq(|s|, k requires 0 <= k < |s| => s[|s| - 1 - k])
  }

  /** Reversing twice gives the list back. */
  lemma ReverseInvolutive<T>(s: seq<T>)
    ensures Reverse(Reverse(s)) == s
  {
    var r := Reverse(Reverse(s));
    forall k | 0 <= k < |s|
      ensures r[k] == s[k]
    {
      assert Reverse(s)[|s| - 1 - k] == s[k];
    }
  }

  /** Reversing a list of buttons keeps its set of lights. */
  lemma ReverseKeepsLights(bs: seq<Button>)
    ensures LightsOf(Reverse(bs)) == LightsOf(bs)
  {
    var r := Reverse(bs);
    forall l | l in LightsOf(bs)
      ensures l in LightsOf(r)
    {
      var b :| b in bs && b.light == l;
      var i :| 0 <= i < |bs| && bs[i] == b;
      assert r[|bs| - 1 - i] == b;
    }
    forall l | l in LightsOf(r)
      ensures l in LightsOf(bs)
    {
      var b :| b in r && b.light == l;
      var i :| 0 <= i < |r| && r[i] == b;
      assert bs[|bs| - 1 - i] == b;
    }
  }

  /** `snake`: light every button in table order, then darken them in
      reverse order. */
  function Snake(): (ms: seq<Message>)
    ensures |ms| == 2 * |BUTTONS|
    ensures ms[..|BUTTONS|] == AllOn()
    ensures forall k :: |BUTTONS| <= k < |ms| ==>
      ms[k] == LightOff(BUTTONS[2 * |BUTTONS| - 1 - k])[0]
  {
    AllOn() + Sweep(Reverse(BUTTONS), false)
  }

  /** Halfway through, every button is lit; at the end every button is
      dark; lights that belong to no button are never touched. */
  lemma SnakeLamps(lit: set<int>)
    ensures Lamps(lit, Snake()[..|BUTTONS|]) == lit + LightsOf(BUTTONS)
    ensures Lamps(lit, Snake()) == lit - LightsOf(BUTTONS)
  {
    var back := Sweep(Reverse(BUTTONS), false);
    assert Snake() == AllOn() + back;
    LampsAppend(lit, AllOn(), back);
    SweepLamps(lit + LightsOf(BUTTONS), Reverse(BUTTONS), false);
    ReverseKeepsLights(BUTTONS);
  }

  /** `blink`: `n` times, every light on and then every light off; nothing
      for `n <= 0`, as `range(n)` is then empty. */
  function Blink(n: int): (ms: seq<Message>)
    ensures |ms| == if n <= 0 then 0 else 2 * n * |BUTTONS|
    decreases n
  {
    if n <= 0 then [] else Blink(n - 1) + AllOn() + AllOff()
  }

  /** After at least one blink every button is dark and no other light has
      changed. */
  lemma {:induction false} BlinkEndsDark(n: int, lit: set<int>)
    requires 0 < n
    ensures Lamps(lit, Blink(n)) == lit - LightsOf(BUTTONS)
    decreases n
  {
    var before := Blink(n - 1);
    LampsAppend(lit, before + AllOn(), AllOff());
    LampsAppend(lit, before, AllOn());
    if 1 < n {
      BlinkEndsDark(n - 1, lit);
    }
  }

  /** Every earlier run of blinks is a prefix of a later one. */
  lemma {:induction false} BlinkPrefix(j: int, n: int)
    requires 0 <= j <= n
    ensures Blink(j) <= Blink(n)
    decreases n - j
  {
    if j < n {
      BlinkPrefix(j + 1, n);
      assert Blink(j) <= Blink(j + 1);
    }
  }

  /** In every cycle of `blink`, the `all_on` half lights every button and
      leaves lights that belong to no button as they were. */
  lemma BlinkLightsAll(n: int, j: int, lit: set<int>)
    requires 0 <= j < n
    ensures Blink(j) + AllOn() <= Blink(n)
    ensures Lamps(lit, Blink(j) + AllOn()) == lit + LightsOf(BUTTONS)
  {
    BlinkPrefix(j + 1, n);
    assert Blink(j + 1) == Blink(j) + AllOn() + AllOff();
    CycleLightsAll(j, lit);
  }

  /** Cycle `j` of `blink` (counting from 0) is `all_on` followed by
      `all_off`, each in table order, starting at message `2 * j * 24`. */
  lemma BlinkCycle(n: int, j: int)
    requires 0 <= j < n
    ensures 2 * (j + 1) * |BUTTONS| <= |Blink(n)|
    ensures Blink(n)[2 * j * |BUTTONS| .. (2 * j + 1) * |BUTTONS|] == AllOn()
    ensures Blink(n)[(2 * j + 1) * |BUTTONS| .. 2 * (j + 1) * |BUTTONS|] == AllOff()
  {
    var before := Blink(j);
    BlinkPrefix(j + 1, n);
    assert Blink(j + 1) == before + AllOn() + AllOff();
    assert |before| == 2 * j * |BUTTONS|;
    assert Blink(n)[..2 * (j + 1) * |BUTTONS|] == before + AllOn() + AllOff();
  }

  /** The `all_on` half of cycle `j`, after the `j` earlier cycles. */
  lemma CycleLightsAll(j: int, lit: set<int>)
    requires 0 <= j
    ensures Lamps(lit, Blink(j) + AllOn()) == lit + LightsOf(BUTTONS)
  {
    var before := Blink(j);
    LampsAppend(lit, before, AllOn());
    if 0 < j {
      BlinkEndsDark(j, lit);
    } else {
      assert before == [];
    }
  }

  /** The digits `countdown` shows, in order. */
  const COUNTDOWN_DIGITS: string := "54321"

  /** One frame: show `c` with `char_on`, then `all_off`. */
  function Frame(c: char): seq<Message>
  {
    CharOn([c]) + AllOff()
  }

  /** The frames of every character of `cs` in turn. */
  function Frames(cs: string): (ms: seq<Message>)
    decreases |cs|
  {
    if |cs| == 0 then [] else Frames(cs[..|cs| - 1]) + Frame(cs[|cs| - 1])
  }

  /** `countdown`: the digits 5 to 1, each shown and then cleared. */
  function Countdown(): (ms: seq<Message>)
    ensures ms == Frame('5') + Frame('4') + Frame('3') + Frame('2') + Frame('1')
  {
    CountdownFrames();
    Frames(COUNTDOWN_DIGITS)
  }

  /** The run of frames over "54321", one frame per digit in order. */
  lemma CountdownFrames()
    ensures Frames(COUNTDOWN_DIGITS) == Frame('5') + Frame('4') + Frame('3') + Frame('2') + Frame('1')
  {
    var cs := COUNTDOWN_DIGITS;
    assert cs[..0] == "";
    assert cs[..1] == "5" && cs[..1][..0] == cs[..0];
    assert cs[..2] == "54" && cs[..2][..1] == cs[..1];
    assert cs[..3] == "543" && cs[..3][..2] == cs[..2];
    assert cs[..4] == "5432" && cs[..4][..3] == cs[..3];
    assert cs[..5] == cs && cs[..4] == cs[..|cs| - 1];
    assert Frames(cs[..1]) == Frame('5');
    assert Frames(cs[..2]) == Frame('5') + Frame('4');
    assert Frames(cs[..3]) == Frame('5') + Frame('4') + Frame('3');
    assert Frames(cs[..4]) == Frame('5') + Frame('4') + Frame('3') + Frame('2');
  }

  /** `char_on` only ever addresses button lights. */
  lemma CharOnAddressesButtons(c: string)
    ensures forall k :: 0 <= k < |CharOn(c)| && CharOn(c)[k].Polytouch? ==>
      CharOn(c)[k].note in LightsOf(BUTTONS)
  {
    var ms := CharOn(c);
    if IsHexDigit(c) {
      var g := Glyph(c).value;
      forall k | 0 <= k < |ms|
        ensures ms[k].note in LightsOf(BUTTONS)
      {
        assert BUTTONS[g[k]] in BUTTONS;
      }
    }
  }

  /** One frame clears every button light, whatever the digit, and leaves
      every other light alone. */
  lemma FrameClears(lit: set<int>, c: string)
    ensures Lamps(lit, CharOn(c) + AllOff()) == lit - LightsOf(BUTTONS)
  {
    LampsAppend(lit, CharOn(c), AllOff());
    CharOnAddressesButtons(c);
    LampsOutside(lit, CharOn(c), LightsOf(BUTTONS));
  }

  /** After a non-empty run of frames every button is dark and no other
      light has changed. */
  lemma {:induction false} FramesEndDark(cs: string, lit: set<int>)
    requires 0 < |cs|
    ensures Lamps(lit, Frames(cs)) == lit - LightsOf(BUTTONS)
    decreases |cs|
  {
    var before := Frames(cs[..|cs| - 1]);
    var c := cs[|cs| - 1];
    LampsAppend(lit, before, Frame(c));
    FrameClears(Lamps(lit, before), [c]);
    if 1 < |cs| {
      FramesEndDark(cs[..|cs| - 1], lit);
    }
  }

  /** Frame `k` of a run is `char_on` of the `k`-th character followed by
      `all_off`. Once its `char_on` is sent, the buttons lit are exactly
      that glyph's from the second frame on, as the earlier frames have
      cleared the rest; the first frame adds the glyph to whatever was
      already lit. Lights of no button never change. */
  lemma FrameShows(cs: string, k: nat, lit: set<int>)
    requires k < |cs|
    ensures Frames(cs[..k]) + CharOn([cs[k]]) <= Frames(cs)
    ensures Frames(cs[..k]) + CharOn([cs[k]]) + AllOff() <= Frames(cs)
    ensures IsHexDigit([cs[k]]) ==>
      Lamps(lit, Frames(cs[..k]) + CharOn([cs[k]]))
        == (if k == 0 then lit else lit - LightsOf(BUTTONS)) + LightsOf(GlyphButtons(Glyph([cs[k]]).value))
  {
    var before := Frames(cs[..k]);
    FrameInRun(cs, k);
    PrefixParts(before, CharOn([cs[k]]), AllOff(), Frames(cs));
    LampsAppend(lit, before, CharOn([cs[k]]));
    if 0 < k {
      FramesEndDark(cs[..k], lit);
    } else {
      assert before == [];
    }
  }

  /** Frame `k` follows the first `k` frames in a run. */
  lemma {:induction false} FrameInRun(cs: string, k: nat)
    requires k < |cs|
    ensures Frames(cs[..k]) + Frame(cs[k]) <= Frames(cs)
    decreases |cs|
  {
    var init := cs[..|cs| - 1];
    if k < |init| {
      FrameInRun(init, k);
      assert init[..k] == cs[..k] && init[k] == cs[k];
      assert Frames(init) <= Frames(cs);
    } else {
      assert cs[..k] == init;
    }
  }

  /** A prefix made of three parts stays a prefix when cut after the second. */
  lemma PrefixParts<T>(a: seq<T>, b: seq<T>, c: seq<T>, whole: seq<T>)
    requires a + (b + c) <= whole
    ensures a + b <= whole && a + b + c <= whole
  {
    assert a + b + c == a + (b + c);
    assert (a + b + c)[..|a + b|] == a + b;
  }

  /** `countdown` shows 5, 4, 3, 2, 1 in that order: from the second frame
      on, frame `k` lights exactly the glyph of the `k`-th digit on an
      otherwise dark board; the first frame adds the glyph of 5 to whatever
      was already lit. */
  lemma CountdownShows(k: nat, lit: set<int>)
    requires k < |COUNTDOWN_DIGITS|
    ensures IsHexDigit([COUNTDOWN_DIGITS[k]])
    ensures Frames(COUNTDOWN_DIGITS[..k]) + CharOn([COUNTDOWN_DIGITS[k]]) <= Countdown()
    ensures Frames(COUNTDOWN_DIGITS[..k]) + CharOn([COUNTDOWN_DIGITS[k]]) + AllOff() <= Countdown()
    ensures Lamps(lit, Frames(COUNTDOWN_DIGITS[..k]) + CharOn([COUNTDOWN_DIGITS[k]]))
      == (if k == 0 then lit else lit - LightsOf(BUTTONS))
        + LightsOf(GlyphButtons(Glyph([COUNTDOWN_DIGITS[k]]).value))
  {
    assert IsHexDigit([COUNTDOWN_DIGITS[k]]);
    FrameShows(COUNTDOWN_DIGITS, k, lit);
  }

  /** `countdown` leaves every button dark and no other light changed. */
  lemma CountdownEndsDark(lit: set<int>)
    ensures Lamps(lit, Countdown()) == lit - LightsOf(BUTTONS)
  {
    FramesEndDark(COUNTDOWN_DIGITS, lit);
  }
}
