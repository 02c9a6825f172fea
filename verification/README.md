# FaderPort driver model

A Dafny model of `faderport.py`, the Python driver for the Presonus
FaderPort USB MIDI controller. The driver translates between the device's
MIDI messages and its controls. Those controls are 24 lit buttons, a
motorised 10-bit fader with a touch sensor, and an endless "Pan" rotary.

The model is functional. The session state is the pair (`_msb`, `_fader`).
The inbound callback is a step function from a state and a message to a new
state and the list of hook calls it makes. Every outbound operation returns
the list of MIDI messages it sends, in order. An independent model of the
device's lights, the set of lit light codes, is the partner against which
the light encoders are proved.

Modules, one file each:

- `Wrappers` (wrappers.dfy): `Option` and `Result`.
- `Midi` (midi.dfy): 7-bit data bytes and the message kinds the driver tells
  apart: polyphonic aftertouch, control change, pitch wheel, and anything
  else.
- `Ascii` (ascii.dfy): `str.upper`, `str.lower` and `str.title` on ASCII
  text.
- `Buttons` (buttons.dfy): the button table and the two lookups, by name and
  by press code.
- `Characters` (characters.dfy): the hexadecimal character matrix.
- `FaderPort` (faderport.dfy): the session, the dispatcher, the fader
  encoder and decoder, the light encoders, `char_on` and `close`.
- `Ports` (ports.dfy): choosing the FaderPort among the host's MIDI port
  names.
- `Chase` (chase.dfy): the `chase` light pattern and the cycling iterators
  that drive it.
- `Effects` (effects.dfy): the `snake`, `blink` and `countdown` light
  sequences.

The fader's encoder and decoder do not invert each other. The setter sends
`v >> 7` on control 0 and `v & 0x7F` on control 32. The callback rebuilds a
14-bit value `msb << 7 | lsb` from those and keeps its top ten bits (`>> 4`).
So a position sent by the setter and fed back through the callback reads as
`v >> 4`, and that differs from `v` for every non-zero position.
`FaderPort.FaderLoopback` states this as the actual behaviour; nothing
assumes the round trip is the identity.

## Model

| member | source | states |
|---|---|---|
| Ascii.TitleIgnoresCase | faderport.py:56 | `title()` gives the same key for the lower-case and upper-case spellings of a name, so name lookup cannot depend on case |
| Ascii.TitleIdempotent | faderport.py:56 | a key that is already titled is its own title |
| Ascii.UpperIgnoresCase | faderport.py:299 | `upper()` gives the same string for the lower-cased and the upper-cased text, and is idempotent |
| Ascii.LowerIgnoresCase | faderport.py:361 | `lower()` gives the same string for the upper-cased and the lower-cased text, and is idempotent |
| Buttons.Lookup | faderport.py:45-47 | a dictionary lookup over a list: a hit is an entry of the list carrying that key; a miss means no entry carries it |
| Buttons.PressCodesArePermutation | faderport.py:18-43 | the press codes are a permutation of 0..23: each is in range, every code is used, and no code is used twice |
| Buttons.LightCodesArePermutation | faderport.py:18-43 | the light codes are a permutation of 0..23 in the same sense |
| Buttons.NamesAreDistinct | faderport.py:18-43 | no two buttons share a label |
| Buttons.AliasIsNoButtonName | faderport.py:46 | the alias "Rec Arm" is not a button label, so adding it overwrites no entry |
| Buttons.NamesAreTitled | faderport.py:18-43 | every label equals its own `title()`, so every button can be reached by name |
| Buttons.AliasIsTitled | faderport.py:46 | the alias equals its own `title()`, so it can be reached by name |
| Buttons.ButtonFromPress | faderport.py:59-65 | the result is a table button sending that code; None exactly when no button sends it |
| Buttons.ButtonFromName | faderport.py:45-56 | a hit is a table button whose label is the titled name, or "Rec" for the alias; a miss is a `KeyError` carrying the titled name, and only happens when no label matches |
| Buttons.PressIdentifies | faderport.py:47 | two buttons with the same press code are the same button, so the press dictionary loses none |
| Buttons.NameIdentifies | faderport.py:45 | two buttons with the same label are the same button, so the name dictionary loses none |
| Buttons.PressRoundTrip | faderport.py:59-65 | looking up a button's own press code returns that button |
| Buttons.PressLookupDomain | faderport.py:59-65 | a press lookup succeeds exactly for 0..23; 127 and every other note give None |
| Buttons.NameRoundTrip | faderport.py:50-56 | looking up a button's own label returns that button |
| Buttons.AliasResolves | faderport.py:46-56 | any spelling of "rec arm" returns the same button as "Rec" |
| Buttons.NameLookupFails | faderport.py:50-56 | a name lookup fails exactly when the titled name is neither the alias nor a label |
| Buttons.NameLookupIgnoresCase | faderport.py:56 | lower-case and upper-case spellings of a name give the same result |
| Buttons.RegistryRoundTrip | faderport.py:45-65 | name to button, then press code back to button, returns the same button |
| Characters.KeyPosition | faderport.py:70-88 | the index computed for a hexadecimal digit holds that digit in the matrix's key order |
| Characters.GlyphsWellFormed | faderport.py:70-88 | every glyph position is in 0..23 and glyphs are strictly increasing, so `BUTTONS[i]` never goes out of range and no button is lit twice |
| Characters.Glyph | faderport.py:299-300 | a glyph exists exactly for a single hexadecimal digit in either case; it is the matrix entry of the upper-cased digit and is well formed |
| Characters.ZeroGlyphSize | faderport.py:71 | the glyph of "0" has fifteen positions |
| Characters.GlyphIgnoresCase | faderport.py:299 | the glyph lookup does not depend on case |
| FaderPort.Combine | faderport.py:186 | the decoded position is in 0..1023 and is the 14-bit reading with its low four bits dropped |
| FaderPort.CombineReachesEveryPosition | faderport.py:186 | every position 0..1023 is the decoding of some pair of halves |
| FaderPort.CombineMonotone | faderport.py:186 | a larger reading never decodes to a smaller position |
| FaderPort.Step | faderport.py:175-191 | a step keeps the fader in 0..1023 and calls at most one hook; only control 0 changes the high half; only control 32 changes the fader; exactly control 32 reports a fader move, with the new position; an unhandled message kind calls no hook and changes nothing |
| FaderPort.ButtonDispatch | faderport.py:177-180 | a button's press note calls `on_button(button, value != 0)` and changes no state |
| FaderPort.FaderTouchDispatch | faderport.py:177-182 | note 127 calls `on_fader_touch(value != 0)` and is never taken for a button |
| FaderPort.StrayNoteIgnored | faderport.py:177-182 | any other aftertouch note calls no hook and changes no state |
| FaderPort.MsbDispatch | faderport.py:183-184 | control 0 only records the high half and calls no hook |
| FaderPort.LsbDispatch | faderport.py:185-187 | control 32 decodes against the recorded high half, keeps it, and calls `on_fader` once with the new position |
| FaderPort.OtherControlIgnored | faderport.py:183-191 | a control other than 0 and 32 calls no hook and changes no state |
| FaderPort.UnhandledIgnored | faderport.py:190-191 | a message of any other kind calls no hook and changes no state |
| FaderPort.RotaryDispatch | faderport.py:188-189 | a pitch-wheel message calls `on_rotary` once: +1 for a negative pitch, -1 otherwise, pitch 0 included |
| FaderPort.Run | faderport.py:175-191 | a stream of messages keeps the fader in range and calls at most one hook per message |
| FaderPort.RunAppend | faderport.py:175-191 | dispatching two streams back to back is dispatching their concatenation |
| FaderPort.RunPair | faderport.py:175-191 | the second of two messages sees the state the first left |
| FaderPort.StickyMsb | faderport.py:183-187 | a run of control-32 messages keeps the high half and decodes every one of them against it |
| FaderPort.FaderExample | faderport.py:183-187 | high half 10 then low half 64 report position 84, whatever the session held before |
| FaderPort.FreshSessionLsb | faderport.py:132-133 | a new session starts with the fader at 0 and `_msb` 0, so a low half alone reports only its top three bits |
| FaderPort.SetFader | faderport.py:231-238 | the stored position is the value when it is in 1..1023 and 0 otherwise; two control messages follow, 0 then 32, whose payloads (the first at most 7) recombine to the stored position |
| FaderPort.FaderLoopback | faderport.py:183-238 | the setter's messages fed back through the callback decode to the stored position divided by 16, which differs from it for every position in 1..1023 |
| FaderPort.LampsAppend | faderport.py:240-249 | the lights after two message lists back to back are the lights after the first, then the second |
| FaderPort.LampsOutside | faderport.py:240-249 | messages that only address lights inside a set leave every light outside it unchanged |
| FaderPort.LightsOfAllButtons | faderport.py:18-43 | the buttons' lights are exactly 0..23 |
| FaderPort.Sweep | faderport.py:251-262 | one light message per button, in the buttons' order, addressing that button's light, on or off as asked |
| FaderPort.SweepLamps | faderport.py:251-262 | a sweep lights (or darkens) exactly its buttons' lights and leaves every other light unchanged |
| FaderPort.LightOn | faderport.py:240-245 | one aftertouch message with note = the button's light and value 1; it adds exactly that light |
| FaderPort.LightOff | faderport.py:247-249 | one aftertouch message with note = the button's light and value 0; it removes exactly that light |
| FaderPort.AllOn | faderport.py:256-262 | 24 messages, the k-th being `light_on(BUTTONS[k])`; every button light ends lit and nothing else changes |
| FaderPort.AllOff | faderport.py:251-254 | 24 messages, the k-th being `light_off(BUTTONS[k])`; every button light ends dark and nothing else changes |
| FaderPort.CharOn | faderport.py:294-301 | nothing for a non-hex character; otherwise one `light_on` per glyph position in glyph order, adding exactly the glyph's lights |
| FaderPort.CharOnExamples | faderport.py:294-301 | "0" sends fifteen messages; "g" sends none and is not an error |
| FaderPort.CharOnIgnoresCase | faderport.py:299 | `char_on` sends the same messages for either case of a character |
| FaderPort.FaderMessagesKeepLamps | faderport.py:231-238 | the setter's messages leave the lights unchanged |
| FaderPort.Close | faderport.py:156-163 | the fader is set to 0 (control 0 then control 32, both 0), then exactly the `all_off` messages follow, in table order; every button ends dark and other lights are unchanged |
| Ports.Matching | faderport.py:361 | the filter keeps exactly the listed names whose lower-case form starts with "faderport" |
| Ports.MatchingCounts | faderport.py:361 | the filter keeps each FaderPort name as many times as it is listed and no other name |
| Ports.FindFaderPortName | faderport.py:352-365 | a port name exactly when 0 <= number < the count of FaderPort names, and then the number-th name the filter kept |
| Ports.MatchPosition | faderport.py:361-363 | the number-th match is preceded in the listing by exactly `number` FaderPort names |
| Ports.FindsNumberedPort | faderport.py:352-365 | a found name sits in the listing right after exactly `number` other FaderPort names |
| Ports.IsFaderPortIgnoresCase | faderport.py:361 | the port test does not depend on the case of the name |
| Chase.RingPositionsName | faderport.py:322-335 | the ring's table positions hold the twelve named buttons, in order |
| Chase.RingNamesDistinct | faderport.py:322-335 | no name occurs twice on the ring |
| Chase.RingIsLookedUpByName | faderport.py:322-335 | each `button_from_name` call in the ring succeeds, with the ring's button |
| Chase.RingDistinct | faderport.py:322-335 | the ring's twelve buttons are pairwise distinct |
| Chase.ChaserCount | faderport.py:337 | the chaser count is in 1..4; it is the request when that is in 1..4, and 2 otherwise |
| Chase.ConsumeIsDraining | faderport.py:434-442 | consuming n items is the same as drawing and discarding n items with `next` |
| Chase.ConsumeSkips | faderport.py:434-442 | after consuming n items from a cycle, `next` yields the item n places further on, wrapping around, and the cycle has advanced n + 1 items |
| Chase.StartChasers | faderport.py:339-342 | iterator j starts j * (12 // n) items in |
| Chase.Tick | faderport.py:345-347 | one tick draws from every iterator in order, lights each chaser's button, and advances every iterator by one |
| Chase.Chase | faderport.py:314-349 | the driver's loop sends exactly the closed-form schedule: at tick t chaser i lights ring button (t + i * (12 // n)) mod 12, then all lights go off |
| Chase.OffsetsSpread | faderport.py:342 | the chasers start in increasing order within one turn of the ring |
| Chase.ChasersNeverCollide | faderport.py:337-347 | at any tick no two chasers show the same button |
| Chase.ChaseEndsDark | faderport.py:344-349 | after at least one tick every button is dark and no other light has changed |
| Effects.ReverseInvolutive | faderport.py:275 | reversing twice gives the list back |
| Effects.ReverseKeepsLights | faderport.py:275-277 | reversing the buttons keeps their set of lights |
| Effects.Snake | faderport.py:264-277 | 48 messages: `all_on` order first, then one `light_off` per button in reverse order |
| Effects.SnakeLamps | faderport.py:264-277 | halfway through every button is lit; at the end every button is dark and no other light has changed |
| Effects.Blink | faderport.py:279-292 | 48 messages per cycle, and nothing for n <= 0, as `range(n)` is then empty |
| Effects.BlinkCycle | faderport.py:288-292 | cycle j (from 0) is exactly `all_on` then `all_off`, each in table order, starting at message 48 j |
| Effects.BlinkLightsAll | faderport.py:288-292 | in each of the n cycles, once its `all_on` is sent every button is lit and no other light has changed |
| Effects.BlinkEndsDark | faderport.py:279-292 | after at least one cycle every button is dark and no other light has changed |
| Effects.FrameClears | faderport.py:308-312 | a frame (`char_on` then `all_off`) leaves every button dark and other lights unchanged, whatever the character |
| Effects.FramesEndDark | faderport.py:308-312 | after any non-empty run of frames every button is dark and no other light has changed |
| Effects.FrameShows | faderport.py:308-312 | frame k is `char_on` of the k-th character then `all_off`, after the first k frames; once its `char_on` is sent, from the second frame on exactly the glyph is lit among the buttons, while the first frame adds the glyph to whatever was already lit; lights of no button never change |
| Effects.Countdown | faderport.py:303-312 | five frames, for 5, 4, 3, 2 and 1 in that order, each `char_on` of the digit followed by `all_off` |
| Effects.CountdownShows | faderport.py:303-312 | the countdown shows 5, 4, 3, 2, 1 in order: from the second frame on, frame k lights exactly the glyph of the k-th digit on an otherwise dark board; the first frame adds the glyph of 5 to whatever was already lit |
| Effects.CountdownEndsDark | faderport.py:303-312 | the countdown leaves every button dark and no other light changed |

## Left out

- mido I/O: opening, resetting and closing ports, callback registration, and `outport.send`. Outbound traffic is the returned message list. The host's port listing is a parameter.
- Hook plumbing: the abstract hook methods and `__enter__`/`__exit__`. Hook calls are the returned event list. `open` has no model of its own: it chooses the port names with `find_faderport_input_name` and `find_faderport_output_name`, which `Ports.FindFaderPortName` models, and otherwise only does I/O and calls `on_open`.
- The diagnostic `print` for unhandled messages is modelled as no event and no state change.
- `time.sleep` and the float durations of `snake`, `blink`, `countdown` and `chase`. Only the order of messages is modelled.
- The callback thread racing the application thread on `_msb` and `_fader`. The model has a single timeline.
- FaderPort.SetFader: does not model the `int(value)` coercion of non-integer input, because the value is a mathematical integer.
- Buttons.ButtonFromName: folds case by the ASCII rules only; Python's `str.title` also maps other letters, so `"ſtop".title()` is "Stop" and finds the Stop button where the model answers `KeyError`.
- Characters.Glyph: upper-cases by the ASCII rules only; Python's `str.upper` also changes non-ASCII letters, which the model leaves as they are.
- Ports.Matching: its port test `IsFaderPort` lower-cases by the ASCII rules only; Python's `str.lower` also changes non-ASCII letters, which the model leaves as they are.
- Ascii.TitleIgnoresCase: covers ASCII only, because `str.title`, `str.upper` and `str.lower` are modelled on ASCII text. Python's Unicode case rules are not modelled.
- The MIDI channel and other message fields the driver never reads are not modelled.
- Button press and light codes are typed as 7-bit data bytes. The table's values all fit.
- FaderPort.Lamp: treats any non-zero aftertouch value as lit. The driver only sends 1 or 0.
- `consume(iterator, None)`, which drains the iterator, is not modelled. `chase` only calls `consume` with a number.
- Chase.Ring: builds the ring from table positions rather than by calling `button_from_name`. `Chase.RingIsLookedUpByName` proves the two agree.
- `TestFaderPort`, `test()` and `setup.py` are demo and packaging code.
