/** The pattern planner: a repeating pattern of 2 to 12 keyframes is spread
    over the device's 12 pattern slots. Every colour is degammed once; when
    fewer than 12 keyframes are given, the segment between the last two is
    cut into npoints = 14 - k equal steps and its npoints - 1 inner points
    take the place of the last keyframe. */
module Pattern {
  import opened Gamma
  import opened Report

  const PatternSlots: int := 12
  const MinKeyframes: int := 2

  /** (time in seconds, colour), as the driver's 2-tuples. */
  datatype Keyframe = Keyframe(duration: real, color: Color)

  predicate ValidLength(p: seq<Keyframe>) {
    MinKeyframes <= |p| <= PatternSlots
  }

  predicate ValidColors(p: seq<Keyframe>) {
    forall i :: 0 <= i < |p| ==> ValidColor(p[i].color)
  }

  /** Every keyframe's colour through the brightness curve; durations kept. */
  function DegammaPattern(p: seq<Keyframe>): (g: seq<Keyframe>)
    requires ValidColors(p)
    ensures |g| == |p| && ValidColors(g)
    ensures forall i :: 0 <= i < |p| ==> g[i].duration == p[i].duration
  {
    seq(|p|, i requires 0 <= i < |p| => Keyframe(p[i].duration, DegammaColor(p[i].color)))
  }

  /** Channel j of a colour, as the driver indexes its 3-tuples. */
  function Channel(c: Color, j: int): int
    requires 0 <= j < 3
  {
    if j == 0 then c.r else if j == 1 then c.g else c.b
  }

  /** Point i of npoints on the way from left to right, truncated; for
      non-negative channels truncation toward zero is the floor. */
  function Lerp(left: int, right: int, i: int, npoints: int): int
    requires npoints > 0
  {
    left + (right - left) * i / npoints
  }

  function Min(a: int, b: int): int { if a <= b then a else b }
  function Max(a: int, b: int): int { if a <= b then b else a }

  // Arithmetic on the interpolation's product and quotient.

  lemma MulNonneg(a: int, b: int)
    requires a >= 0 && b >= 0
    ensures a * b >= 0
  {
  }

  lemma PosFactor(a: int, n: int)
    requires n > 0 && a * n > 0
    ensures a > 0
  {
  }

  /** x = q * n + r with 0 <= r < n determines the quotient. */
  lemma DivUnique(x: int, n: int, q: int, r: int)
    requires n > 0 && 0 <= r < n && x == q * n + r
    ensures x / n == q
  {
    var q', r' := x / n, x % n;
    assert (q' - q + 1) * n == r - r' + n;
    assert (q - q' + 1) * n == r' - r + n;
    PosFactor(q' - q + 1, n);
    PosFactor(q - q' + 1, n);
  }

  lemma MulDivCancel(d: int, n: int)
    requires n > 0
    ensures d * n / n == d
  {
    DivUnique(d * n, n, d, 0);
  }

  lemma DivLe(a: int, b: int, n: int)
    requires a <= b && n > 0
    ensures a / n <= b / n
  {
    var qa, qb := a / n, b / n;
    assert (qb - qa + 1) * n == (b - b % n) - (a - a % n) + n;
    PosFactor(qb - qa + 1, n);
  }

  lemma MulLe(d: int, i: int, j: int)
    requires d >= 0 && i <= j
    ensures d * i <= d * j
  {
    MulNonneg(d, j - i);
    assert d * j - d * i == d * (j - i);
  }

  /** Interpolation never leaves the segment between its two ends. */
  lemma LerpBetween(left: int, right: int, i: int, npoints: int)
    requires 0 <= i <= npoints && npoints > 0
    ensures Min(left, right) <= Lerp(left, right, i, npoints) <= Max(left, right)
  {
    var d := right - left;
    MulDivCancel(d, npoints);
    if d >= 0 {
      MulLe(d, 0, i);
      MulLe(d, i, npoints);
      DivLe(0, d * i, npoints);
      DivLe(d * i, d * npoints, npoints);
    } else {
      MulLe(-d, 0, i);
      MulLe(-d, i, npoints);
      assert d * i == -((-d) * i) && d * npoints == -((-d) * npoints);
      DivLe(d * npoints, d * i, npoints);
      DivLe(d * i, 0, npoints);
    }
  }

  /** Both ends of the segment are hit exactly. */
  lemma LerpEnds(left: int, right: int, npoints: int)
    requires npoints > 0
    ensures Lerp(left, right, 0, npoints) == left
    ensures Lerp(left, right, npoints, npoints) == right
  {
    MulDivCancel(right - left, npoints);
  }

  /** Later points move further from left, in the direction of right. */
  lemma LerpMonotone(left: int, right: int, i: int, i': int, npoints: int)
    requires 0 <= i <= i' && npoints > 0
    ensures left <= right ==> Lerp(left, right, i, npoints) <= Lerp(left, right, i', npoints)
    ensures right <= left ==> Lerp(left, right, i', npoints) <= Lerp(left, right, i, npoints)
  {
    var d := right - left;
    if d >= 0 {
      MulLe(d, i, i');
      DivLe(d * i, d * i', npoints);
    } else {
      MulLe(-d, i, i');
      assert d * i == -((-d) * i) && d * i' == -((-d) * i');
      DivLe(d * i', d * i, npoints);
    }
  }

  /** The last inner point falls short of a rising right end. */
  lemma LerpStopsShort(left: int, right: int, npoints: int)
    requires npoints > 0 && left < right
    ensures Lerp(left, right, npoints - 1, npoints) < right
  {
    var d := right - left;
    assert d * (npoints - 1) == d * npoints - d;
    MulLe(d, 1, npoints);
    DivLe(d * (npoints - 1), d * npoints - 1, npoints);
    DivUnique(d * npoints - 1, npoints, d - 1, npoints - 1);
  }

  /** The colour at point i of npoints between two colours. */
  function Interpolate(left: Color, right: Color, i: int, npoints: int): Color
    requires npoints > 0
  {
    Color(Lerp(left.r, right.r, i, npoints), Lerp(left.g, right.g, i, npoints),
          Lerp(left.b, right.b, i, npoints))
  }

  /** The inner points i = 1 .. npoints - 1, each lasting duration. */
  function Tail(left: Color, right: Color, duration: real, npoints: int): (t: seq<Keyframe>)
    requires npoints > 0
    ensures |t| == npoints - 1
  {
    seq(npoints - 1, k requires 0 <= k < npoints - 1 =>
      Keyframe(duration, Interpolate(left, right, k + 1, npoints)))
  }

  /** The nested loops of the driver that build the interpolated points:
      one point per step i, one channel per inner step j. */
  method InterpolateTail(left: Color, right: Color, duration: real, npoints: int)
    returns (interpolated: seq<Keyframe>)
    requires npoints > 0
    ensures interpolated == Tail(left, right, duration, npoints)
  {
    interpolated := [];
    var i := 1;
    while i < npoints
      invariant 1 <= i <= npoints
      invariant |interpolated| == i - 1
      invariant forall k :: 0 <= k < i - 1 ==>
        interpolated[k] == Keyframe(duration, Interpolate(left, right, k + 1, npoints))
    {
      var color: seq<int> := [];
      var j := 0;
      while j < 3
        invariant 0 <= j <= 3 && |color| == j
        invariant forall t :: 0 <= t < j ==>
          color[t] == Lerp(Channel(left, t), Channel(right, t), i, npoints)
      {
        color := color + [Lerp(Channel(left, j), Channel(right, j), i, npoints)];
        j := j + 1;
      }
      interpolated := interpolated + [Keyframe(duration, Color(color[0], color[1], color[2]))];
      i := i + 1;
    }
  }

  /** The number of steps the tail segment is cut into. */
  function Npoints(k: int): int {
    PatternSlots - k + 2
  }

  /** The 12 slots for a pattern whose colours are already degammed. */
  function Plan(g: seq<Keyframe>): (slots: seq<Keyframe>)
    requires ValidLength(g)
    ensures |slots| == PatternSlots
  {
    var k := |g|;
    if k == PatternSlots then g
    else
      var npoints := Npoints(k);
      g[..k - 1] + Tail(g[k - 2].color, g[k - 1].color, g[k - 1].duration / npoints as real, npoints)
  }

  /** All keyframes but the last keep their slot, whatever the length;
      twelve keyframes are taken verbatim. */
  lemma PlanKeepsKeyframes(g: seq<Keyframe>)
    requires ValidLength(g)
    ensures forall s :: 0 <= s < |g| - 1 ==> Plan(g)[s] == g[s]
    ensures |g| == PatternSlots ==> Plan(g) == g
  {
  }

  /** Slots k-1 .. 11 of a shorter pattern are the inner points
      i = s - k + 2 of the last segment, each lasting last duration / npoints,
      each channel between the two ends' channels and moving monotonically
      from left towards right. */
  lemma PlanTail(g: seq<Keyframe>, s: int)
    requires ValidLength(g) && |g| < PatternSlots
    requires |g| - 1 <= s < PatternSlots
    ensures var k := |g|; var n := Npoints(k);
      Plan(g)[s] == Keyframe(g[k - 1].duration / n as real,
                             Interpolate(g[k - 2].color, g[k - 1].color, s - k + 2, n))
    ensures var left, right, c := g[|g| - 2].color, g[|g| - 1].color, Plan(g)[s].color;
      Min(left.r, right.r) <= c.r <= Max(left.r, right.r) &&
      Min(left.g, right.g) <= c.g <= Max(left.g, right.g) &&
      Min(left.b, right.b) <= c.b <= Max(left.b, right.b)
  {
    var k := |g|;
    var n := Npoints(k);
    var left, right := g[k - 2].color, g[k - 1].color;
    assert Plan(g)[s] == Tail(left, right, g[k - 1].duration / n as real, n)[s - (k - 1)];
    LerpBetween(left.r, right.r, s - k + 2, n);
    LerpBetween(left.g, right.g, s - k + 2, n);
    LerpBetween(left.b, right.b, s - k + 2, n);
  }

  /** Along the tail, each channel moves monotonically from left towards right. */
  lemma PlanTailMonotone(g: seq<Keyframe>, s: int, s': int)
    requires ValidLength(g) && |g| < PatternSlots
    requires |g| - 1 <= s <= s' < PatternSlots
    ensures var left, right := g[|g| - 2].color, g[|g| - 1].color;
      var c, c' := Plan(g)[s].color, Plan(g)[s'].color;
      (left.r <= right.r ==> c.r <= c'.r) && (right.r <= left.r ==> c'.r <= c.r) &&
      (left.g <= right.g ==> c.g <= c'.g) && (right.g <= left.g ==> c'.g <= c.g) &&
      (left.b <= right.b ==> c.b <= c'.b) && (right.b <= left.b ==> c'.b <= c.b)
  {
    var k := |g|;
    var n := Npoints(k);
    var left, right := g[k - 2].color, g[k - 1].color;
    PlanTail(g, s);
    PlanTail(g, s');
    LerpMonotone(left.r, right.r, s - k + 2, s' - k + 2, n);
    LerpMonotone(left.g, right.g, s - k + 2, s' - k + 2, n);
    LerpMonotone(left.b, right.b, s - k + 2, s' - k + 2, n);
  }

  /** Slot 11 is point npoints - 1 of npoints, never point npoints itself,
      so every channel that rises towards the last keyframe stops short of
      it. */
  lemma PlanLastSlotShort(g: seq<Keyframe>)
    requires ValidLength(g) && |g| < PatternSlots
    ensures var left, right := g[|g| - 2].color, g[|g| - 1].color;
      forall j :: 0 <= j < 3 && Channel(left, j) < Channel(right, j) ==>
        Channel(Plan(g)[PatternSlots - 1].color, j) < Channel(right, j)
  {
    var k := |g|;
    var left, right := g[k - 2].color, g[k - 1].color;
    PlanTail(g, PatternSlots - 1);
    assert PatternSlots - 1 - k + 2 == Npoints(k) - 1;
    forall j | 0 <= j < 3 && Channel(left, j) < Channel(right, j)
      ensures Channel(Plan(g)[PatternSlots - 1].color, j) < Channel(right, j)
    {
      LerpStopsShort(Channel(left, j), Channel(right, j), Npoints(k));
    }
  }

  /** When the last two keyframes share a colour, every tail slot carries
      that colour, so here the last keyframe's colour does reach the slots. */
  lemma PlanFlatTail(g: seq<Keyframe>, s: int)
    requires ValidLength(g) && |g| < PatternSlots
    requires |g| - 1 <= s < PatternSlots
    requires g[|g| - 2].color == g[|g| - 1].color
    ensures Plan(g)[s].color == g[|g| - 1].color
  {
    PlanTail(g, s);
  }

  /** Byte colours in, byte colours out: every slot can be packed. */
  lemma PlanColorsValid(g: seq<Keyframe>)
    requires ValidLength(g) && ValidColors(g)
    ensures ValidColors(Plan(g))
  {
    var k := |g|;
    forall s | 0 <= s < PatternSlots
      ensures ValidColor(Plan(g)[s].color)
    {
      if k < PatternSlots && s >= k - 1 {
        PlanTail(g, s);
      }
    }
  }

  /** Non-negative keyframe durations give slot durations that can be packed. */
  lemma PlanDurationsEncodable(g: seq<Keyframe>)
    requires ValidLength(g)
    requires forall i :: 0 <= i < |g| ==> g[i].duration >= 0.0
    ensures forall s :: 0 <= s < PatternSlots ==> DurationEncodable(Plan(g)[s].duration)
  {
    var k := |g|;
    forall s | 0 <= s < PatternSlots
      ensures DurationEncodable(Plan(g)[s].duration)
    {
      if s >= k - 1 && k < PatternSlots {
        PlanTail(g, s);
        assert g[k - 1].duration / Npoints(k) as real >= 0.0;
      }
    }
  }

  /** Every slot's duration can be packed. */
  predicate DurationsEncodable(slots: seq<Keyframe>) {
    forall s :: 0 <= s < |slots| ==> DurationEncodable(slots[s].duration)
  }

  /** What the driver's struct.pack calls need of a pattern of valid length:
      byte colours and packable slot durations. A pattern of invalid length
      is rejected before any of it is looked at. */
  predicate Packable(pattern: seq<Keyframe>) {
    ValidLength(pattern) ==>
      ValidColors(pattern) && DurationsEncodable(Plan(DegammaPattern(pattern)))
  }

  /** Non-negative durations are always packable. */
  lemma NonNegativeDurationsPackable(pattern: seq<Keyframe>)
    requires ValidColors(pattern)
    requires forall i :: 0 <= i < |pattern| ==> pattern[i].duration >= 0.0
    ensures Packable(pattern)
  {
    if ValidLength(pattern) {
      PlanDurationsEncodable(DegammaPattern(pattern));
    }
  }

  /** One 'write pattern line' report per slot, at its own position, with
      the colour as given (already degammed). */
  function PatternReports(slots: seq<Keyframe>): (reports: seq<seq<int>>)
    requires |slots| <= 256 && ValidColors(slots) && DurationsEncodable(slots)
    ensures |reports| == |slots|
    ensures forall s :: 0 <= s < |slots| ==>
      IsReport(reports[s]) && reports[s][7] == s &&
      Decode(reports[s]) == Some(PatternLine(s, slots[s].color, NormalizeDuration(slots[s].duration)))
  {
    seq(|slots|, s requires 0 <= s < |slots| =>
      PatternLineReport(s, slots[s].color, slots[s].duration, false))
  }

  /** The reports a valid pattern turns into: one per slot, its colours
      degammed up front. */
  function PatternMessages(pattern: seq<Keyframe>): (reports: seq<seq<int>>)
    requires ValidLength(pattern) && Packable(pattern)
    ensures |reports| == PatternSlots
    ensures forall s :: 0 <= s < PatternSlots ==> IsReport(reports[s])
  {
    var g := DegammaPattern(pattern);
    PlanColorsValid(g);
    PatternReports(Plan(g))
  }

  /** Reports of a valid pattern, read back: slot s < k - 1 (every slot
      when k = 12) carries keyframe s with its colour degammed exactly once
      and its own duration. */
  lemma PatternWritesKeyframes(pattern: seq<Keyframe>, s: int)
    requires ValidLength(pattern) && Packable(pattern)
    requires 0 <= s < |pattern| - 1 || (|pattern| == PatternSlots && 0 <= s < PatternSlots)
    ensures var m := PatternMessages(pattern)[s];
      m[1] == WritePatternLine && m[7] == s &&
      Decode(m) == Some(PatternLine(s, DegammaColor(pattern[s].color),
                                    NormalizeDuration(pattern[s].duration)))
  {
    var g := DegammaPattern(pattern);
    PlanColorsValid(g);
    PlanKeepsKeyframes(g);
    assert Plan(g)[s] == g[s];
  }

  /** Reports of a pattern of k < 12 keyframes, read back: slot s >= k - 1
      carries tail point s - k + 2 of npoints between the last two degammed
      keyframes, lasting the last duration / npoints. */
  lemma PatternWritesTail(pattern: seq<Keyframe>, s: int)
    requires ValidLength(pattern) && Packable(pattern) && |pattern| < PatternSlots
    requires |pattern| - 1 <= s < PatternSlots
    ensures var k := |pattern|;
      var m := PatternMessages(pattern)[s];
      m[1] == WritePatternLine && m[7] == s &&
      Decode(m) == Some(PatternLine(s, Interpolate(DegammaColor(pattern[k - 2].color),
                                                   DegammaColor(pattern[k - 1].color), s - k + 2, Npoints(k)),
                                    NormalizeDuration(pattern[k - 1].duration / Npoints(k) as real)))
  {
    var g := DegammaPattern(pattern);
    PlanColorsValid(g);
    PlanTail(g, s);
  }
}
