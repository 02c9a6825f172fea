/** The MIDI message shapes the FaderPort exchanges with its host. */
module Midi {

  /** A MIDI data byte: note numbers, control numbers and values are 7 bits wide. */
  type Data7 = x: int | 0 <= x < 128

  /** The signed 14-bit field of a pitch-wheel message. */
  type Pitch = x: int | -8192 <= x < 8192

  /** The message kinds the driver distinguishes; every other kind of MIDI
      message (note on, sysex, ...) is `Other`, tagged with its type name. */
  datatype Message =
    | Polytouch(note: Data7, value: Data7)
    | ControlChange(control: Data7, value: Data7)
    | PitchWheel(pitch: Pitch)
    | Other(kind: string)
}
