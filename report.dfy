/** The 9-byte HID feature reports of the blink(1): byte 0 is the report
    ID, byte 1 a one-character opcode, the rest colour, duration, position
    or padding. Every encoder here is paired with one decoder, `Decode`,
    that reads a report back into the command it carries. */
module Report {
  import opened Gamma

  datatype Option<T> = None | Some(value: T)

  const ReportId: int := 1
  const ReportSize: int := 9

  /** Opcodes: 'n' set now, 'c' fade, 'p' play/stop, 'P' write pattern line. */
  const SetRgbNow: int := 'n' as int
  const FadeToRgb: int := 'c' as int
  const PlayPattern: int := 'p' as int
  const WritePatternLine: int := 'P' as int

  /** The device counts durations in centiseconds in an unsigned 16-bit field. */
  const MaxCentiseconds: int := 65535
  const MaxDuration: real := 655.35

  /** What struct.pack's 'B' format accepts. */
  predicate IsByte(x: int) {
    0 <= x < 256
  }

  datatype Color = Color(r: int, g: int, b: int)

  predicate ValidColor(c: Color) {
    IsByte(c.r) && IsByte(c.g) && IsByte(c.b)
  }

  /** A well-formed report: nine bytes starting with the report ID. */
  predicate IsReport(m: seq<int>) {
    |m| == ReportSize && m[0] == ReportId && forall i :: 0 <= i < |m| ==> IsByte(m[i])
  }

  /** The command a report carries, as the device reads it. */
  datatype Command =
    | SetNow(color: Color)
    | FadeTo(color: Color, centis: int)
    | Play(on: bool)
    | PatternLine(pos: int, color: Color, centis: int)

  /** Reads a report back; None for anything that is not one that the
      encoders below can produce. */
  function Decode(m: seq<int>): (c: Option<Command>)
    ensures c.Some? ==> IsReport(m)
  {
    if !IsReport(m) then None
    else
      var color := Color(m[2], m[3], m[4]);
      var centis := m[5] * 256 + m[6];
      if m[1] == SetRgbNow && m[5..] == [0, 0, 0, 0] then Some(SetNow(color))
      else if m[1] == FadeToRgb && m[7..] == [0, 0] then Some(FadeTo(color, centis))
      else if m[1] == PlayPattern && (m[2] == 0 || m[2] == 1) && m[3..] == [0, 0, 0, 0, 0, 0] then
        Some(Play(m[2] == 1))
      else if m[1] == WritePatternLine && m[8] == 0 then Some(PatternLine(m[7], color, centis))
      else None
  }

  /** Each channel through the brightness curve. */
  function DegammaColor(c: Color): (d: Color)
    requires ValidColor(c)
    ensures ValidColor(d)
    ensures c == Color(0, 0, 0) ==> d == c
    ensures c == Color(255, 255, 255) ==> d == c
    ensures d.r <= c.r && d.g <= c.g && d.b <= c.b
  {
    DegammaByte(c.r);
    DegammaByte(c.g);
    DegammaByte(c.b);
    Color(Degamma(c.r), Degamma(c.g), Degamma(c.b))
  }

  /** Python's int() on a float: truncation toward zero. */
  function Truncate(x: real): (n: int)
    ensures 0.0 <= x ==> n as real <= x < n as real + 1.0
    ensures x < 0.0 ==> n as real - 1.0 < x <= n as real
    ensures (n >= 0) == (x > -1.0)
  {
    if x >= 0.0 then x.Floor else -((-x).Floor)
  }

  /** Seconds to centiseconds, silently clamped at 655.35 s. */
  function NormalizeDuration(raw: real): (cs: int)
    ensures cs <= MaxCentiseconds
    ensures raw >= MaxDuration ==> cs == MaxCentiseconds
    ensures (cs >= 0) == (raw > -0.01)
    ensures -0.01 < raw < 0.0 ==> cs == 0
    ensures 0.0 <= raw <= MaxDuration ==> cs as real <= raw * 100.0 < cs as real + 1.0
  {
    Truncate((if raw < MaxDuration then raw else MaxDuration) * 100.0)
  }

  /** A non-negative normalised duration is what struct.pack accepts. */
  predicate DurationEncodable(raw: real) {
    NormalizeDuration(raw) >= 0
  }

  /** Every whole number of centiseconds the field can hold survives the
      conversion from seconds. */
  lemma CentisecondsRoundTrip(cs: int)
    requires 0 <= cs <= MaxCentiseconds
    ensures NormalizeDuration(cs as real / 100.0) == cs
  {
    assert cs as real / 100.0 <= MaxDuration;
    assert (cs as real / 100.0) * 100.0 == cs as real;
  }

  /** The duration's high byte (cs // 256) and low byte (cs % 256). */
  function SplitDuration(cs: int): (hl: (int, int))
    requires 0 <= cs <= MaxCentiseconds
    ensures IsByte(hl.0) && IsByte(hl.1)
    ensures hl.0 * 256 + hl.1 == cs
  {
    (cs / 256, cs % 256)
  }

  /** The 'set RGB now' report, colour degammed. */
  function SetRgbReport(c: Color): (m: seq<int>)
    requires ValidColor(c)
    ensures IsReport(m) && m[1] == SetRgbNow
    ensures Decode(m) == Some(SetNow(DegammaColor(c)))
  {
    var d := DegammaColor(c);
    [ReportId, SetRgbNow, d.r, d.g, d.b, 0, 0, 0, 0]
  }

  /** The 'fade to RGB' report for a positive duration, colour degammed. */
  function FadeRgbReport(c: Color, duration: real): (m: seq<int>)
    requires ValidColor(c) && duration > 0.0
    ensures IsReport(m) && m[1] == FadeToRgb
    ensures Decode(m) == Some(FadeTo(DegammaColor(c), NormalizeDuration(duration)))
  {
    var d := DegammaColor(c);
    var (hi, lo) := SplitDuration(NormalizeDuration(duration));
    [ReportId, FadeToRgb, d.r, d.g, d.b, hi, lo, 0, 0]
  }

  /** The 'play' report: 1 starts playback of the pattern buffer, 0 stops it. */
  function PlayReport(play: bool): (m: seq<int>)
    ensures IsReport(m) && m[1] == PlayPattern
    ensures Decode(m) == Some(Play(play))
  {
    [ReportId, PlayPattern, if play then 1 else 0, 0, 0, 0, 0, 0, 0]
  }

  /** The 'write pattern line' report; the colour is degammed only when asked. */
  function PatternLineReport(pos: int, c: Color, duration: real, degamma: bool): (m: seq<int>)
    requires IsByte(pos) && ValidColor(c) && DurationEncodable(duration)
    ensures IsReport(m) && m[1] == WritePatternLine && m[7] == pos
    ensures Decode(m) == Some(PatternLine(pos, if degamma then DegammaColor(c) else c, NormalizeDuration(duration)))
  {
    var (hi, lo) := SplitDuration(NormalizeDuration(duration));
    var d := if degamma then DegammaColor(c) else c;
    [ReportId, WritePatternLine, d.r, d.g, d.b, hi, lo, pos, 0]
  }

  /** Reports of distinct commands differ: each encoder is injective in what
      reaches the wire. */
  lemma DecodeDeterminesReport(m1: seq<int>, m2: seq<int>)
    requires Decode(m1).Some? && Decode(m1) == Decode(m2)
    ensures m1 == m2
  {
    var c := Decode(m1).value;
    assert |m1| == |m2| == ReportSize;
    match c
    case SetNow(_) =>
      assert m1[5..] == m2[5..];
    case FadeTo(_, cs) =>
      assert m1[7..] == m2[7..];
      assert m1[5] == cs / 256 == m2[5];
      assert m1[6] == cs % 256 == m2[6];
    case Play(_) =>
      assert m1[3..] == m2[3..];
    case PatternLine(_, _, cs) =>
      assert m1[5] == cs / 256 == m2[5];
      assert m1[6] == cs % 256 == m2[6];
    assert forall i :: 0 <= i < ReportSize ==> m1[i] == m2[i];
  }

  /** Turning the light off is 'set now' to black: degamma keeps 0 at 0. */
  lemma OffReport()
    ensures SetRgbReport(Color(0, 0, 0)) == [1, 'n' as int, 0, 0, 0, 0, 0, 0, 0]
  {
  }

  /** Durations beyond 655.35 s encode exactly like 655.35 s, as 0xFF 0xFF. */
  lemma FadeClamp(c: Color, duration: real)
    requires ValidColor(c) && duration >= MaxDuration
    ensures FadeRgbReport(c, duration) == FadeRgbReport(c, MaxDuration)
    ensures FadeRgbReport(c, duration)[5] == 255 && FadeRgbReport(c, duration)[6] == 255
  {
  }

  /** set-colour (200, 0, 0), then a 2 s fade to (0, 200, 0). */
  lemma SetThenFadeScenario()
    ensures Degamma(200) == 81
    ensures SetRgbReport(Color(200, 0, 0)) == [1, 'n' as int, 81, 0, 0, 0, 0, 0, 0]
    ensures FadeRgbReport(Color(0, 200, 0), 2.0) == [1, 'c' as int, 0, 81, 0, 0, 200, 0, 0]
  {
    DegammaAt(200, 6, 8);
    Pow2Small(6);
    assert NormalizeDuration(2.0) == 200;
  }
}
