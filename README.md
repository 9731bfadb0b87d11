# blink(1) command encoding, modelled in Dafny

A model of the command layer of the Python driver for the blink(1) USB
notification light (`lib/blink1.py`). The driver turns each command into a
fixed 9-byte HID feature report — byte 0 the report ID 1, byte 1 a
one-character opcode (`n` set now, `c` fade, `p` play/stop, `P` write
pattern line) — and hands it to a USB control transfer.

- `gamma.dfy` (module `Gamma`): the integer brightness curve `_degamma`,
  `n = 32*e + m  ↦  (2^e - 1) + floor((2^e*(m+1) + 15) / 32)`, with its
  range, end points, block boundaries, monotonicity and its staying below
  the identity.
- `report.dfy` (module `Report`): colours, the seconds-to-centiseconds
  conversion with its clamp at 655.35 s, the high/low byte split, and the
  four report encoders. Each encoder's contract is a round trip through one
  independent decoder, `Decode`, which reads a report back into the command
  it carries; `DecodeDeterminesReport` shows the decoder is injective on
  reports, so the round trip pins every byte.
- `pattern.dfy` (module `Pattern`): the pattern planner of `set_pattern`.
  Colours are degammed once; `Tail` is the specification of the nested
  interpolation loops and `InterpolateTail` is those loops, proved equal to
  it; `Plan` gives the 12 slots, and the lemmas say which keyframes keep
  their slots and where the interpolated points lie.
- `device.dfy` (module `Device`): class `Blink1`, whose field `sent` is the
  log of every report handed to `_send_message`, in order. Each public
  method states exactly which reports it appends; `set_pattern` appends
  nothing when the length is outside 2..12.

`write_pattern_line` puts the slot position in byte 7 of its report and
byte 8 is padding (lib/blink1.py:156-157). `fade_rgb` degammas its colour
just as `set_rgb` does (lib/blink1.py:89).

Two observations the proofs bring out. The start of brightness block `j`
meets the end of block `j - 1` only for `j <= 4`; from block 5 on the curve
jumps there by `2^j / 32` (`DegammaBlockJoin`). And the tail points of a
short pattern are `i = 1 .. npoints - 1` of `npoints`: point `npoints`,
the last keyframe itself, is not among them, so a channel that rises
towards the last keyframe stops short of it in slot 11
(`PlanLastSlotShort`). A flat channel, or a falling one that drops by less
than `npoints`, can still end on the last keyframe's value, because the
truncated quotient reaches it; with two equal last colours every tail slot is
that colour (`PlanFlatTail`).

## Model

| member | source | states |
|---|---|---|
| `Gamma.Degamma` | lib/blink1.py:40-41 | no contract of its own: the curve on `n / 32` and `n % 32`; its properties are the `Gamma.Degamma*` lemmas below |
| `Gamma.Curve` | lib/blink1.py:41 | no contract of its own: the expression of the source on an exponent and a mantissa |
| `Gamma.Pow2` | lib/blink1.py:41 | `1 << e` is at least 1 |
| `Gamma.DegammaReferencePoints` | lib/blink1.py:40-41 | agrees with a hand-written table of the first outputs 0, 1, 3, 7, 15, 32, 65, 131 and the last outputs 1, 3, 7, 15, 31, 63, 127, 255 of the eight blocks |
| `Gamma.DegammaRange` | lib/blink1.py:38-41 | every input 0..255 maps into 0..255 |
| `Gamma.DegammaEndpoints` | lib/blink1.py:38-41 | 0 maps to 0 and 255 maps to 255 |
| `Gamma.DegammaBelowIdentity` | lib/blink1.py:38-41 | on a byte the result is no brighter than the input: the curve never exceeds the identity on 0..255 |
| `Gamma.DegammaBlockBound` | lib/blink1.py:40-41 | within block e the output lies between 2^e - 1 and 2^(e+1) - 1 |
| `Gamma.DegammaBlockEnd` | lib/blink1.py:40-41 | the last input of block e, 32e+31, maps to exactly 2^(e+1) - 1 |
| `Gamma.DegammaBlockStart` | lib/blink1.py:40-41 | the first input of block j, 32j, maps to 2^j - 1 + 2^j/32 |
| `Gamma.DegammaBlockJoin` | lib/blink1.py:40-41 | the curve is flat across the boundary into block j exactly when j <= 4 |
| `Gamma.DegammaStep` | lib/blink1.py:40-41 | one step right never lowers the curve |
| `Gamma.DegammaMonotone` | lib/blink1.py:40-41 | the curve is non-decreasing: a <= b gives degamma(a) <= degamma(b) |
| `Report.Decode` | lib/blink1.py:64-157 | only 9-byte reports whose bytes are bytes and whose byte 0 is the report ID decode to a command |
| `Report.DegammaColor` | lib/blink1.py:62 | a byte colour maps to a byte colour, no brighter per channel, black and white fixed |
| `Report.Truncate` | lib/blink1.py:219 | Python's `int` of a number: the floor of a non-negative number and the ceiling of a negative one (toward zero), non-negative exactly when the number is above -1 |
| `Report.NormalizeDuration` | lib/blink1.py:211-219 | centiseconds never exceed 65535, are 65535 from 655.35 s on, are non-negative exactly above -0.01 s, are 0 between -0.01 s and 0 s, and are the floor of seconds·100 in range |
| `Report.CentisecondsRoundTrip` | lib/blink1.py:211-219 | every centisecond count 0..65535, given as seconds, converts back to itself |
| `Report.SplitDuration` | lib/blink1.py:98-99 | high and low bytes are bytes and `hi*256 + lo` rebuilds the centiseconds |
| `Report.SetRgbReport` | lib/blink1.py:54-69 | a well-formed `n` report that decodes to set-now with the degammed colour |
| `Report.FadeRgbReport` | lib/blink1.py:89-100 | a well-formed `c` report that decodes to fade with the degammed colour and the normalised duration |
| `Report.PlayReport` | lib/blink1.py:111-116 | a well-formed `p` report that decodes to play or stop as asked |
| `Report.PatternLineReport` | lib/blink1.py:144-157 | a well-formed `P` report with the position in byte 7, decoding to the position, the colour (degammed only when asked) and the normalised duration |
| `Report.DecodeDeterminesReport` | lib/blink1.py:64-157 | two reports that decode to the same command are the same bytes |
| `Report.OffReport` | lib/blink1.py:48-52 | turning off sends `[1, 'n', 0, 0, 0, 0, 0, 0, 0]` |
| `Report.FadeClamp` | lib/blink1.py:86-100 | a fade of 655.35 s or longer encodes exactly like 655.35 s, with duration bytes 0xFF 0xFF |
| `Report.SetThenFadeScenario` | lib/blink1.py:54-102 | set (200,0,0) then a 2 s fade to (0,200,0) gives `[1,'n',81,0,0,0,0,0,0]` and `[1,'c',0,81,0,0,200,0,0]` |
| `Pattern.DegammaPattern` | lib/blink1.py:183-184 | keeps the length and every duration, and yields byte colours |
| `Pattern.Lerp` | lib/blink1.py:201 | no contract of its own: `left + (right - left)*i/npoints` truncated; its properties are the `Pattern.Lerp*` lemmas below |
| `Pattern.Interpolate` | lib/blink1.py:195-202 | no contract of its own: point i of npoints, channel by channel; `Pattern.PlanTail` and `Pattern.PlanTailMonotone` state its properties in the slots |
| `Pattern.LerpBetween` | lib/blink1.py:201 | an interpolated channel lies between the two end channels |
| `Pattern.LerpEnds` | lib/blink1.py:201 | point 0 is the left end and point npoints the right end |
| `Pattern.LerpMonotone` | lib/blink1.py:201 | later points move monotonically from left towards right |
| `Pattern.LerpStopsShort` | lib/blink1.py:194-201 | point npoints - 1 of a rising channel is below the right end |
| `Pattern.Tail` | lib/blink1.py:194-202 | the tail has npoints - 1 points |
| `Pattern.InterpolateTail` | lib/blink1.py:194-202 | the nested loops build exactly the points i = 1..npoints-1, each with the per-point duration |
| `Pattern.Npoints` | lib/blink1.py:188 | no contract of its own: the point count `12 - k + 2` of the tail |
| `Pattern.Plan` | lib/blink1.py:186-207 | every valid pattern gives exactly 12 slots |
| `Pattern.PlanKeepsKeyframes` | lib/blink1.py:204-207 | slots 0..k-2 are the degammed keyframes 0..k-2; with 12 keyframes the slots are the keyframes verbatim |
| `Pattern.PlanTail` | lib/blink1.py:186-205 | for k < 12, slot s >= k-1 is point s-k+2 of npoints = 14-k between the last two keyframes, lasting last duration / npoints, every channel between the two ends |
| `Pattern.PlanTailMonotone` | lib/blink1.py:194-202 | along the tail slots every channel moves monotonically towards the last keyframe |
| `Pattern.PlanLastSlotShort` | lib/blink1.py:194-207 | for k < 12, every channel (red, green, blue) that rises from keyframe k-2 to keyframe k-1 stays below the last keyframe's value in slot 11 |
| `Pattern.PlanFlatTail` | lib/blink1.py:194-205 | for k < 12, when the last two keyframes share a colour, every tail slot s >= k-1 has exactly that colour |
| `Pattern.PlanColorsValid` | lib/blink1.py:183-209 | byte keyframe colours give byte slot colours |
| `Pattern.PlanDurationsEncodable` | lib/blink1.py:189 | non-negative keyframe durations give packable slot durations |
| `Pattern.NonNegativeDurationsPackable` | lib/blink1.py:183-209 | byte colours and non-negative durations make a pattern packable |
| `Pattern.PatternReports` | lib/blink1.py:207-209 | one well-formed report per slot, position s in byte 7, decoding to the slot's colour as given and its normalised duration |
| `Pattern.PatternMessages` | lib/blink1.py:183-209 | a valid pattern yields exactly 12 well-formed reports |
| `Pattern.PatternWritesKeyframes` | lib/blink1.py:183-209 | report s is a `P` report for position s carrying keyframe s with its colour degammed exactly once and its own duration, for s < k-1 and for every s when k = 12 |
| `Pattern.PatternWritesTail` | lib/blink1.py:186-209 | for k < 12, report s >= k-1 is a `P` report for position s carrying tail point s-k+2 of npoints between `DegammaColor` of the last two keyframes (each degammed exactly once), with duration last / npoints |
| `Device.Blink1.constructor` | lib/blink1.py:45-46 | a new session has sent nothing |
| `Device.Blink1.SendMessage` | lib/blink1.py:221-272 | the report is appended to the log and nothing else changes |
| `Device.Blink1.Off` | lib/blink1.py:48-52 | appends exactly `[1, 'n', 0, 0, 0, 0, 0, 0, 0]`, the set_rgb report for black |
| `Device.Blink1.SetRgb` | lib/blink1.py:54-71 | appends exactly the set-now report |
| `Device.Blink1.FadeRgb` | lib/blink1.py:73-102 | a duration <= 0 appends the set_rgb report byte for byte; otherwise the fade report |
| `Device.Blink1.Play` | lib/blink1.py:104-117 | appends exactly the play report for the flag |
| `Device.Blink1.Stop` | lib/blink1.py:119-124 | appends exactly the play(False) report |
| `Device.Blink1.WritePatternLine` | lib/blink1.py:126-158 | appends exactly the pattern-line report |
| `Device.Blink1.PlanSlots` | lib/blink1.py:183-205 | the degamma step and the interpolation loops build exactly `Plan` of the degammed keyframes |
| `Device.Blink1.WriteSlots` | lib/blink1.py:207-209 | appends exactly one pattern-line report per slot, slot s at position s, colour not degammed again |
| `Device.Blink1.SetPattern` | lib/blink1.py:160-209 | a length outside 2..12 returns the length error and appends nothing; otherwise appends exactly the 12 slot reports in position order |

## Left out

- `find()` (lib/blink1.py:25-34): USB bus enumeration happens in an external library; a session is created empty.
- The body of `_send_message` (lib/blink1.py:221-272): kernel-driver detach, interface claim and the control transfer are foreign USB calls; the model only appends the report to `sent`. A failing transfer, which would propagate and stop a `set_pattern` part way, is not modelled; neither is the device handle `usbdev`.
- Floating point: durations are exact reals, so `NormalizeDuration` idealises IEEE doubles (in doubles `0.29 * 100` truncates to 28; here it is 29). The clamp itself agrees: 655.35·100 rounds to 65535.0 in doubles. The channel interpolation is modelled with integer floor division, which matches the float expression because the exact value is non-negative and at least 1/npoints ≥ 1/12 away from any integer it does not equal.
- `struct.pack` failures (channels outside 0..255, a position outside 0..255, a negative centisecond count) and `_degamma`'s failure on a negative input are preconditions, not error results. `write_pattern_line` accepts any position that fits a byte, as `struct.pack` does; the documented range 0..11 is not enforced by the code.
- Device.Blink1.SetPattern: requires byte channels for every keyframe and packable slot durations; in the source a negative channel fails in `_degamma` (lib/blink1.py:183) before any write; a channel above 255 or a negative slot duration fails in `struct.pack` at the write of that slot, after the earlier slots are written (for the last keyframe's colour, which only feeds the interpolation, sometimes not at all).
- Device.Blink1.PlanSlots: requires byte channels, for the same reason as `SetPattern`; the failures are those of the line above.
- Colours are records of three channels; the source's tuples could have other lengths, which `set_rgb` and `write_pattern_line` reject by unpacking.
- The `__main__` demonstration (lib/blink1.py:275-286).
