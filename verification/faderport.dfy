/** The FaderPort session: the inbound dispatcher, a state machine over the
    pending high half of the fader value and the cached fader position, and
    the outbound encoders for the fader and the button lights. Hook calls
    are returned as a list of events and outbound traffic as a list of
    messages, both in the order the driver makes them. */
module FaderPort {
  import opened Wrappers
  import opened Ascii
  import opened Midi
  import opened Buttons
  import opened Characters

  /** The note the fader sends, as polyphonic aftertouch, when it is touched or released. */
  const FADER_TOUCH_NOTE: Data7 := 127

  /** The control carrying the high half of the fader value. */
  const MSB_CONTROL: Data7 := 0

  /** The control carrying the low half of the fader value. */
  const LSB_CONTROL: Data7 := 32

  /** The highest fader position. */
  const FADER_MAX: int := 1023

  /** What the session remembers between messages: the high half of the
      fader value last received (`_msb`) and the fader position (`_fader`). */
  datatype State = State(msb: Data7, fader: int)

  /** The state of a newly constructed session. */
  const INITIAL: State := State(0, 0)

  /** The fader position is a 10-bit value. */
  predicate Valid(s: State)
  {
    0 <= s.fader <= FADER_MAX
  }

  /** A call of one of the application's hooks. */
  datatype Event =
    | ButtonChanged(button: Button, pressed: bool)   // on_button
    | FaderTouched(touched: bool)                     // on_fader_touch
    | FaderMoved(position: int)                       // on_fader
    | Rotated(direction: int)                         // on_rotary

  /** The session after an inbound message, and the hooks it called. */
  datatype Dispatched = Dispatched(state: State, events: seq<Event>)

  /** The session after a control operation, and the messages it sent. */
  datatype Emitted = Emitted(state: State, messages: seq<Message>)

  // ---------------------------------------------------------------------
  // Inbound: the fader decoder and the dispatcher
  // ---------------------------------------------------------------------

  /** `(msb << 7 | lsb) >> 4`. The halves are 7-bit, so the `|` joins them into
      a 14-bit reading without overlap, and the shift keeps its top ten bits. */
  function Combine(msb: Data7, lsb: Data7): (position: int)
    ensures 0 <= position <= FADER_MAX
    ensures position * 16 <= msb * 128 + lsb < position * 16 + 16
  {
    (msb * 128 + lsb) / 16
  }

  /** Every fader position can be reported: the reading whose top ten bits
      are `position` decodes to it. */
  lemma CombineReachesEveryPosition(position: int)
    requires 0 <= position <= FADER_MAX
    ensures Combine(position / 8, position % 8 * 16) == position
  {
  }

  /** A larger 14-bit reading never decodes to a smaller position. */
  lemma CombineMonotone(msb: Data7, lsb: Data7, msb': Data7, lsb': Data7)
    requires msb * 128 + lsb <= msb' * 128 + lsb'
    ensures Combine(msb, lsb) <= Combine(msb', lsb')
  {
  }

  /** `_message_callback`: classify one inbound message, in the driver's order
      of precedence, and update the session. */
  function Step(s: State, m: Message): (d: Dispatched)
    ensures Valid(s) ==> Valid(d.state)
    ensures |d.events| <= 1
    ensures d.state.msb != s.msb ==> m.ControlChange? && m.control == MSB_CONTROL
    ensures d.state.fader != s.fader ==> m.ControlChange? && m.control == LSB_CONTROL
    ensures (|d.events| == 1 && d.events[0].FaderMoved?) <==> m.ControlChange? && m.control == LSB_CONTROL
    ensures |d.events| == 1 && d.events[0].FaderMoved? ==> d.events[0].position == d.state.fader
    ensures m.Other? ==> d == Dispatched(s, [])
  {
    match m
    case Polytouch(note, value) =>
      var button := ButtonFromPress(note);
      if button.Some? then Dispatched(s, [ButtonChanged(button.value, value != 0)])
      else if note == FADER_TOUCH_NOTE then Dispatched(s, [FaderTouched(value != 0)])
      else Dispatched(s, [])
    case ControlChange(control, value) =>
      if control == MSB_CONTROL then Dispatched(s.(msb := value), [])
      else if control == LSB_CONTROL then
        var position := Combine(s.msb, value);
        Dispatched(s.(fader := position), [FaderMoved(position)])
      else Dispatched(s, [])
    case PitchWheel(pitch) => Dispatched(s, [Rotated(if pitch < 0 then 1 else -1)])
    case Other(_) => Dispatched(s, [])
  }

  /** A button's press note reports that button, pressed for a non-zero value. */
  lemma ButtonDispatch(s: State, b: Button, value: Data7)
    requires b in BUTTONS
    ensures Step(s, Polytouch(b.press, value)) == Dispatched(s, [ButtonChanged(b, value != 0)])
  {
    PressRoundTrip(b);
  }

  /** Note 127 reports a fader touch and is never taken for a button. */
  lemma FaderTouchDispatch(s: State, value: Data7)
    ensures Step(s, Polytouch(FADER_TOUCH_NOTE, value)) == Dispatched(s, [FaderTouched(value != 0)])
  {
    PressLookupDomain(FADER_TOUCH_NOTE);
  }

  /** Any other aftertouch note is ignored. */
  lemma StrayNoteIgnored(s: State, note: Data7, value: Data7)
    requires BUTTON_COUNT <= note < FADER_TOUCH_NOTE
    ensures Step(s, Polytouch(note, value)) == Dispatched(s, [])
  {
    PressLookupDomain(note);
  }

  /** Control 0 only records the high half. */
  lemma MsbDispatch(s: State, value: Data7)
    ensures Step(s, ControlChange(MSB_CONTROL, value)) == Dispatched(State(value, s.fader), [])
  {
  }

  /** Control 32 decodes the fader against the recorded high half, keeps that
      half, and reports the new position once. */
  lemma LsbDispatch(s: State, value: Data7)
    ensures var p := Combine(s.msb, value);
      Step(s, ControlChange(LSB_CONTROL, value)) == Dispatched(State(s.msb, p), [FaderMoved(p)])
  {
  }

  /** Any other control change is ignored. */
  lemma OtherControlIgnored(s: State, control: Data7, value: Data7)
    requires control != MSB_CONTROL && control != LSB_CONTROL
    ensures Step(s, ControlChange(control, value)) == Dispatched(s, [])
  {
  }

  /** Any other kind of message is reported as unhandled: no hook is
      called and the session does not change. */
  lemma UnhandledIgnored(s: State, kind: string)
    ensures Step(s, Other(kind)) == Dispatched(s, [])
  {
  }

  /** A pitch-wheel message is one rotary tick: +1 for a negative pitch and
      -1 otherwise, zero included. */
  lemma RotaryDispatch(s: State, pitch: Pitch)
    ensures Step(s, PitchWheel(pitch)).state == s
    ensures |Step(s, PitchWheel(pitch)).events| == 1
    ensures var e := Step(s, PitchWheel(pitch)).events[0];
      e.Rotated? && (e.direction == 1 <==> pitch < 0) && (e.direction == 1 || e.direction == -1)
  {
  }

  /** Any dispatcher applied to a stream of messages, one after another.
      Laws that hold whatever the dispatcher does are proved about this. */
  function Fold(step: (State, Message) -> Dispatched, s: State, ms: seq<Message>): Dispatched
    decreases |ms|
  {
    if |ms| == 0 then Dispatched(s, [])
    else
      var first := step(s, ms[0]);
      var rest := Fold(step, first.state, ms[1..]);
      Dispatched(rest.state, first.events + rest.events)
  }

  /** Folding two streams back to back is folding their concatenation. */
  lemma {:induction false} FoldAppend(step: (State, Message) -> Dispatched, s: State, a: seq<Message>, b: seq<Message>)
    ensures var first := Fold(step, s, a);
      var second := Fold(step, first.state, b);
      Fold(step, s, a + b) == Dispatched(second.state, first.events + second.events)
    decreases |a|
  {
    if |a| == 0 {
      assert a + b == b;
    } else {
      assert (a + b)[0] == a[0];
      assert (a + b)[1..] == a[1..] + b;
      FoldAppend(step, step(s, a[0]).state, a[1..], b);
    }
  }

  /** The dispatcher applied to a stream of messages, one after another. */
  function Run(s: State, ms: seq<Message>): (d: Dispatched)
    ensures Valid(s) ==> Valid(d.state)
    ensures |d.events| <= |ms|
    decreases |ms|
  {
    if |ms| == 0 then Dispatched(s, [])
    else
      var first := Step(s, ms[0]);
      var rest := Run(first.state, ms[1..]);
      Dispatched(rest.state, first.events + rest.events)
  }

  /** The session's dispatcher is the fold of Step. */
  lemma {:induction false} RunIsFold(s: State, ms: seq<Message>)
    ensures Run(s, ms) == Fold(Step, s, ms)
    decreases |ms|
  {
    if |ms| > 0 {
      RunIsFold(Step(s, ms[0]).state, ms[1..]);
    }
  }

  /** Dispatching two streams back to back is dispatching their concatenation. */
  lemma RunAppend(s: State, a: seq<Message>, b: seq<Message>)
    ensures var first := Run(s, a);
      var second := Run(first.state, b);
      Run(s, a + b) == Dispatched(second.state, first.events + second.events)
  {
    RunIsFold(s, a + b);
    RunIsFold(s, a);
    RunIsFold(Run(s, a).state, b);
    FoldAppend(Step, s, a, b);
  }

  /** Dispatching two messages: the second sees the state the first left. */
  lemma RunPair(s: State, a: Message, b: Message)
    ensures var first := Step(s, a);
      var second := Step(first.state, b);
      Run(s, [a, b]) == Dispatched(second.state, first.events + second.events)
  {
    var ms := [a, b];
    var first := Step(s, a);
    var second := Step(first.state, b);
    assert ms[1..] == [b];
    assert [b][1..] == [];
    assert Run(first.state, [b]) == Dispatched(second.state, second.events + []);
    assert second.events + [] == second.events;
  }

  /** A run of control-32 messages with no control 0 between them: the high
      half is sticky, so every one of them is decoded against it. */
  function LsbMessages(values: seq<Data7>): seq<Message>
  {
    seq(|values|, k requires 0 <= k < |values| => ControlChange(LSB_CONTROL, values[k]))
  }

  lemma {:induction false} StickyMsb(s: State, values: seq<Data7>)
    ensures Run(s, LsbMessages(values)).state.msb == s.msb
    ensures |values| > 0 ==> Run(s, LsbMessages(values)).state.fader == Combine(s.msb, values[|values| - 1])
    ensures Run(s, LsbMessages(values)).events
      == seq(|values|, k requires 0 <= k < |values| => FaderMoved(Combine(s.msb, values[k])))
    decreases |values|
  {
    if |values| > 0 {
      var ms := LsbMessages(values);
      assert ms[0] == ControlChange(LSB_CONTROL, values[0]);
      assert ms[1..] == LsbMessages(values[1..]);
      var s' := State(s.msb, Combine(s.msb, values[0]));
      StickyMsb(s', values[1..]);
    }
  }

  /** High half 10 then low half 64 report position 84,
      whatever the session held before. */
  lemma FaderExample(s: State)
    ensures Run(s, [ControlChange(MSB_CONTROL, 10), ControlChange(LSB_CONTROL, 64)])
      == Dispatched(State(10, 84), [FaderMoved(84)])
  {
    RunPair(s, ControlChange(MSB_CONTROL, 10), ControlChange(LSB_CONTROL, 64));
    LsbDispatch(State(10, s.fader), 64);
  }

  /** A new session starts in range, and until a high half arrives a low
      half is decoded against 0: it reports only the low half's top three
      bits. */
  lemma FreshSessionLsb(value: Data7)
    ensures Valid(INITIAL)
    ensures Step(INITIAL, ControlChange(LSB_CONTROL, value))
      == Dispatched(State(0, value / 16), [FaderMoved(value / 16)])
    ensures value / 16 <= 7
  {
    LsbDispatch(INITIAL, value);
  }

  // ---------------------------------------------------------------------
  // Outbound: the fader encoder
  // ---------------------------------------------------------------------

  /** The `fader` setter: store the position (anything outside 1..1023 becomes
      0) and send it as control 0 carrying `position >> 7` then control 32
      carrying `position & 0x7F`. */
  function SetFader(s: State, value: int): (e: Emitted)
    ensures Valid(e.state) && e.state.msb == s.msb
    ensures 0 < value <= FADER_MAX ==> e.state.fader == value
    ensures !(0 < value <= FADER_MAX) ==> e.state.fader == 0
    ensures |e.messages| == 2
    ensures e.messages[0].ControlChange? && e.messages[0].control == MSB_CONTROL
    ensures e.messages[1].ControlChange? && e.messages[1].control == LSB_CONTROL
    ensures e.messages[0].value <= 7
    ensures e.messages[0].value * 128 + e.messages[1].value == e.state.fader
  {
    var position := if 0 < value < 1024 then value else 0;
    Emitted(s.(fader := position),
      [ControlChange(MSB_CONTROL, position / 128), ControlChange(LSB_CONTROL, position % 128)])
  }

  /** Fed back through the dispatcher, the setter's two messages do not
      reproduce the position: the encoder splits it at bit 7 while the
      decoder reads a 14-bit value and drops four bits, so the decoded
      position is the stored one divided by 16, which differs from it for
      every position but 0. */
  lemma FaderLoopback(s: State, s0: State, value: int)
    ensures var e := SetFader(s, value);
      var stored := e.state.fader;
      Run(s0, e.messages) == Dispatched(State(stored / 128, stored / 16), [FaderMoved(stored / 16)])
    ensures 0 < value <= FADER_MAX ==>
      var decoded := Run(s0, SetFader(s, value).messages).state.fader;
      decoded == value / 16 && decoded != value
  {
    var e := SetFader(s, value);
    var ms := e.messages;
    assert ms == [ms[0], ms[1]];
    RunPair(s0, ms[0], ms[1]);
    var stored := e.state.fader;
    assert Combine(stored / 128, stored % 128) == stored / 16;
  }

  // ---------------------------------------------------------------------
  // Outbound: the button lights
  // ---------------------------------------------------------------------

  /** The message that turns a button's light on or off. */
  function LightMessage(b: Button, on: bool): Message
  {
    Polytouch(b.light, if on then 1 else 0)
  }

  /** The device's lights, as the set of light codes that are lit. An
      aftertouch message lights its note for a non-zero value and darkens it
      for zero; other messages leave the lights alone. */
  function Lamp(lit: set<int>, m: Message): set<int>
  {
    if !m.Polytouch? then lit
    else if m.value != 0 then lit + {m.note}
    else lit - {m.note}
  }

  /** The lights after a sequence of messages. */
  function Lamps(lit: set<int>, ms: seq<Message>): set<int>
    decreases |ms|
  {
    if |ms| == 0 then lit else Lamps(Lamp(lit, ms[0]), ms[1..])
  }

  lemma {:induction false} LampsAppend(lit: set<int>, a: seq<Message>, b: seq<Message>)
    ensures Lamps(lit, a + b) == Lamps(Lamps(lit, a), b)
    decreases |a|
  {
    if |a| == 0 {
      assert a + b == b;
    } else {
      assert (a + b)[0] == a[0];
      assert (a + b)[1..] == a[1..] + b;
      LampsAppend(Lamp(lit, a[0]), a[1..], b);
    }
  }

  /** Messages that only address lights inside `region` leave every light
      outside it as it was. */
  lemma {:induction false} LampsOutside(lit: set<int>, ms: seq<Message>, region: set<int>)
    requires forall k :: 0 <= k < |ms| && ms[k].Polytouch? ==> ms[k].note in region
    ensures Lamps(lit, ms) - region == lit - region
    decreases |ms|
  {
    if |ms| > 0 {
      assert forall k :: 0 <= k < |ms[1..]| ==> ms[1..][k] == ms[k + 1];
      LampsOutside(Lamp(lit, ms[0]), ms[1..], region);
    }
  }

  /** The light codes of some buttons. */
  function LightsOf(bs: seq<Button>): set<int>
  {
    set b | b in bs :: b.light
  }

  /** The light codes of the buttons are exactly 0..23. */
  lemma LightsOfAllButtons()
    ensures forall l :: l in LightsOf(BUTTONS) <==> 0 <= l < BUTTON_COUNT
  {
    forall l | l in LightsOf(BUTTONS)
      ensures 0 <= l < BUTTON_COUNT
    {
      var b :| b in BUTTONS && b.light == l;
      var i :| 0 <= i < |BUTTONS| && BUTTONS[i] == b;
      LightPositionLeftInverse();
    }
    forall l | 0 <= l < BUTTON_COUNT
      ensures l in LightsOf(BUTTONS)
    {
      LightPositionRightInverse();
      assert BUTTONS[LIGHT_POSITION[l]] in BUTTONS;
    }
  }

  /** `for b in bs: light_on(b)` (or `light_off`): one message per button,
      in order. */
  function Sweep(bs: seq<Button>, on: bool): (ms: seq<Message>)
    ensures |ms| == |bs|
    ensures forall k :: 0 <= k < |bs| ==> ms[k].Polytouch? && ms[k].note == bs[k].light
    ensures forall k :: 0 <= k < |bs| ==> (ms[k].value != 0 <==> on)
  {
    seq(|bs|, k requires 0 <= k < |bs| => LightMessage(bs[k], on))
  }

  /** A sweep lights (or darkens) exactly the lights of its buttons and
      leaves every other light as it was. */
  lemma {:induction false} SweepLamps(lit: set<int>, bs: seq<Button>, on: bool)
    ensures Lamps(lit, Sweep(bs, on)) == if on then lit + LightsOf(bs) else lit - LightsOf(bs)
    decreases |bs|
  {
    if |bs| > 0 {
      var ms := Sweep(bs, on);
      assert ms[1..] == Sweep(bs[1..], on);
      assert LightsOf(bs) == {bs[0].light} + LightsOf(bs[1..]) by {
        assert bs == [bs[0]] + bs[1..];
      }
      SweepLamps(Lamp(lit, ms[0]), bs[1..], on);
    }
  }

  /** `light_on`: one message lighting the button. */
  function LightOn(b: Button): (ms: seq<Message>)
    ensures |ms| == 1 && ms[0].Polytouch? && ms[0].note == b.light && ms[0].value == 1
    ensures forall lit :: Lamps(lit, ms) == lit + {b.light}
  {
    var ms := Sweep([b], true);
    assert forall lit :: Lamps(lit, ms) == Lamps(Lamp(lit, ms[0]), ms[1..]);
    ms
  }

  /** `light_off`: one message darkening the button. */
  function LightOff(b: Button): (ms: seq<Message>)
    ensures |ms| == 1 && ms[0].Polytouch? && ms[0].note == b.light && ms[0].value == 0
    ensures forall lit :: Lamps(lit, ms) == lit - {b.light}
  {
    var ms := Sweep([b], false);
    assert forall lit :: Lamps(lit, ms) == Lamps(Lamp(lit, ms[0]), ms[1..]);
    ms
  }

  /** `all_on`: light every button, in table order. */
  function AllOn(): (ms: seq<Message>)
    ensures |ms| == |BUTTONS|
    ensures forall k :: 0 <= k < |BUTTONS| ==> ms[k] == LightOn(BUTTONS[k])[0]
    ensures forall lit :: Lamps(lit, ms) == lit + LightsOf(BUTTONS)
  {
    var ms := Sweep(BUTTONS, true);
    assert forall lit :: Lamps(lit, ms) == lit + LightsOf(BUTTONS) by {
      forall lit { SweepLamps(lit, BUTTONS, true); }
    }
    ms
  }

  /** `all_off`: darken every button, in table order. */
  function AllOff(): (ms: seq<Message>)
    ensures |ms| == |BUTTONS|
    ensures forall k :: 0 <= k < |BUTTONS| ==> ms[k] == LightOff(BUTTONS[k])[0]
    ensures forall lit :: Lamps(lit, ms) == lit - LightsOf(BUTTONS)
  {
    var ms := Sweep(BUTTONS, false);
    assert forall lit :: Lamps(lit, ms) == lit - LightsOf(BUTTONS) by {
      forall lit { SweepLamps(lit, BUTTONS, false); }
    }
    ms
  }

  /** The buttons a glyph addresses, in the glyph's order. */
  function GlyphButtons(g: seq<int>): (bs: seq<Button>)
    requires WellFormedGlyph(g)
  {
    seq(|g|, k requires 0 <= k < |g| => BUTTONS[g[k]])
  }

  /** `char_on`: light the glyph of a hexadecimal digit, one button at a time
      in the glyph's order, on top of whatever is already lit; anything else
      sends nothing. */
  function CharOn(c: string): (ms: seq<Message>)
    ensures !IsHexDigit(c) ==> ms == []
    ensures IsHexDigit(c) ==>
      var g := Glyph(c).value;
      && |ms| == |g|
      && (forall k :: 0 <= k < |g| ==> ms[k] == LightOn(BUTTONS[g[k]])[0])
      && (forall lit :: Lamps(lit, ms) == lit + LightsOf(GlyphButtons(g)))
  {
    match Glyph(c)
    case None => []
    case Some(g) =>
      var ms := Sweep(GlyphButtons(g), true);
      assert forall lit :: Lamps(lit, ms) == lit + LightsOf(GlyphButtons(g)) by {
        forall lit { SweepLamps(lit, GlyphButtons(g), true); }
      }
      ms
  }

  /** The digit 0 lights fifteen buttons; an unsupported character lights
      none and is not an error. */
  lemma CharOnExamples()
    ensures |CharOn("0")| == 15
    ensures CharOn("g") == []
  {
    ZeroGlyphSize();
  }

  /** `char_on` ignores case. */
  lemma CharOnIgnoresCase(c: string)
    ensures CharOn(Lower(c)) == CharOn(c)
  {
    GlyphIgnoresCase(c);
  }

  // ---------------------------------------------------------------------
  // Closing the session
  // ---------------------------------------------------------------------

  /** The fader messages leave the lights alone. */
  lemma FaderMessagesKeepLamps(s: State, value: int, lit: set<int>)
    ensures Lamps(lit, SetFader(s, value).messages) == lit
  {
    var ms := SetFader(s, value).messages;
    assert ms[1..][1..] == [];
    assert Lamps(lit, ms[1..]) == Lamps(lit, ms[1..][1..]);
  }

  /** The messages `close` sends: the fader back to 0, then every light off. */
  function Close(s: State): (e: Emitted)
    ensures e.state == State(s.msb, 0)
    ensures |e.messages| == 2 + |BUTTONS|
    ensures e.messages[..2] == [ControlChange(MSB_CONTROL, 0), ControlChange(LSB_CONTROL, 0)]
    ensures e.messages[2..] == AllOff()
    ensures forall lit :: Lamps(lit, e.messages) == lit - LightsOf(BUTTONS)
  {
    var fader := SetFader(s, 0);
    var ms := fader.messages + AllOff();
    assert ms[..2] == fader.messages;
    forall lit
      ensures Lamps(lit, ms) == lit - LightsOf(BUTTONS)
    {
      LampsAppend(lit, fader.messages, AllOff());
      FaderMessagesKeepLamps(s, 0, lit);
    }
    Emitted(fader.state, ms)
  }
}
