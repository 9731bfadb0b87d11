/** One blink(1) device session. Every public command ends in one transfer
    of a 9-byte report per device write; the model keeps those reports, in
    order, in the log `sent`. */
module Device {
  import opened Report
  import opened Pattern

  /** set_pattern's only caller-visible failure: a length outside 2..12. */
  datatype Outcome = Done | InvalidLength(length: int)

  class Blink1 {
    /** Every report handed to the control transfer, oldest first. */
    var sent: seq<seq<int>>

    /** Only well-formed reports ever reach the device. */
    ghost predicate Valid()
      reads this
    {
      forall i :: 0 <= i < |sent| ==> IsReport(sent[i])
    }

    constructor ()
      ensures Valid() && sent == []
    {
      sent := [];
    }

    /** The transfer step: detach and claim are best effort, the control
        transfer carries the report. */
    method SendMessage(message: seq<int>)
      requires Valid() && IsReport(message)
      modifies this
      ensures Valid() && sent == old(sent) + [message]
    {
      sent := sent + [message];
    }

    /** Black, through set_rgb. */
    method Off()
      requires Valid()
      modifies this
      ensures Valid() && sent == old(sent) + [[ReportId, SetRgbNow, 0, 0, 0, 0, 0, 0, 0]]
      ensures sent == old(sent) + [SetRgbReport(Color(0, 0, 0))]
    {
      OffReport();
      SetRgb(Color(0, 0, 0));
    }

    method SetRgb(c: Color)
      requires Valid() && ValidColor(c)
      modifies this
      ensures Valid() && sent == old(sent) + [SetRgbReport(c)]
    {
      SendMessage(SetRgbReport(c));
    }

    /** A non-positive duration is a plain set_rgb. */
    method FadeRgb(c: Color, duration: real := 2.0)
      requires Valid() && ValidColor(c)
      modifies this
      ensures Valid()
      ensures duration <= 0.0 ==> sent == old(sent) + [SetRgbReport(c)]
      ensures duration > 0.0 ==> sent == old(sent) + [FadeRgbReport(c, duration)]
    {
      if duration <= 0.0 {
        SetRgb(c);
        return;
      }
      SendMessage(FadeRgbReport(c, duration));
    }

    method Play(play: bool := true)
      requires Valid()
      modifies this
      ensures Valid() && sent == old(sent) + [PlayReport(play)]
    {
      SendMessage(PlayReport(play));
    }

    /** play(False). */
    method Stop()
      requires Valid()
      modifies this
      ensures Valid() && sent == old(sent) + [PlayReport(false)]
    {
      Play(false);
    }

    method WritePatternLine(pos: int, c: Color, duration: real := 2.0, degamma: bool := true)
      requires Valid() && IsByte(pos) && ValidColor(c) && DurationEncodable(duration)
      modifies this
      ensures Valid() && sent == old(sent) + [PatternLineReport(pos, c, duration, degamma)]
    {
      SendMessage(PatternLineReport(pos, c, duration, degamma));
    }

    /** The final loop of set_pattern: slot s goes to position s, its
        colour already degammed. */
    method WriteSlots(slots: seq<Keyframe>)
      requires Valid() && |slots| <= 256 && ValidColors(slots) && DurationsEncodable(slots)
      modifies this
      ensures Valid() && sent == old(sent) + PatternReports(slots)
    {
      ghost var reports := PatternReports(slots);
      for i := 0 to |slots|
        invariant Valid()
        invariant sent == old(sent) + reports[..i]
      {
        WritePatternLine(i, slots[i].color, slots[i].duration, false);
        assert reports[..i + 1] == reports[..i] + [reports[i]];
      }
      assert reports[..|slots|] == reports;
    }

    /** The planning steps of set_pattern: degamma every keyframe once,
        then, for fewer than 12 keyframes, keep all but the last and fill
        the rest with the interpolated tail points. */
    static method PlanSlots(pattern: seq<Keyframe>) returns (all: seq<Keyframe>)
      requires ValidLength(pattern) && ValidColors(pattern)
      ensures all == Plan(DegammaPattern(pattern))
    {
      var degammed := DegammaPattern(pattern);
      var interpolated: seq<Keyframe> := [];
      var slots := degammed;
      var k := |degammed|;
      if k < PatternSlots {
        var npoints := PatternSlots - k + 2;
        var duration := degammed[k - 1].duration / npoints as real;
        var left, right := degammed[k - 2].color, degammed[k - 1].color;
        interpolated := InterpolateTail(left, right, duration, npoints);
        ghost var tail := interpolated;
        slots := degammed[..k - 1] + [interpolated[0]];
        interpolated := interpolated[1..];
        assert slots + interpolated == degammed[..k - 1] + tail by {
          assert [tail[0]] + tail[1..] == tail;
        }
      }
      all := slots + interpolated;
      assert all == Plan(degammed);
    }

    /** Checks the length, plans the 12 slots, and writes them in position
        order. Nothing is sent for a length outside 2..12. */
    method SetPattern(pattern: seq<Keyframe>) returns (outcome: Outcome)
      requires Valid() && Packable(pattern)
      modifies this
      ensures Valid()
      ensures !ValidLength(pattern) ==> outcome == InvalidLength(|pattern|) && sent == old(sent)
      ensures ValidLength(pattern) ==> outcome == Done && sent == old(sent) + PatternMessages(pattern)
    {
      if |pattern| < MinKeyframes || |pattern| > PatternSlots {
        return InvalidLength(|pattern|);
      }
      var all := PlanSlots(pattern);
      PlanColorsValid(DegammaPattern(pattern));
      WriteSlots(all);
      return Done;
    }
  }
}
