/** The rating as it applies to what the gdb parser collects. */
module TraceVerdict {
  import opened BacktraceLines
  import opened GdbParserModel
  import opened Rating
  import opened RatingLaws
  import opened RatingReport
  import opened LineDescriptions

  /** Only stack frames of the input are ever rated. */
  lemma {:induction false} RatedAreInputFrames(lines: seq<BacktraceLine>)
    ensures forall line :: line in AcceptAll(FRESH, lines).linesToRate ==> line in lines && line.kind.StackFrame?
  {
    if lines != [] {
      RatedAreInputFrames(lines[..|lines| - 1]);
      assert lines == lines[..|lines| - 1] + [lines[|lines| - 1]];
    }
  }

  function FramesOf(lines: seq<BacktraceLine>): seq<Frame> {
    Frames(DescribeAll(AcceptAll(FRESH, lines).linesToRate))
  }

  lemma InputFramesAreRated(p: Patterns, texts: seq<string>)
    ensures AllRated(FramesOf(ClassifyAll(p, texts)))
  {
    var lines := ClassifyAll(p, texts);
    var rated := AcceptAll(FRESH, lines).linesToRate;
    RatedAreInputFrames(lines);
    forall i | 0 <= i < |rated|
      ensures 0 <= Describe(rated[i]).frame.rating <= 4
    {
      var k :| 0 <= k < |lines| && lines[k] == rated[i];
      assert lines[k] == Classify(p, texts[k]);
      DescriptionIsValid(rated[i]);
    }
  }

  /** For every trace with at most 46340 counted frames, what calculateRatingData announces is the exact verdict of the
      rating window, whatever it announced before. */
  lemma AnnouncedVerdictIsExact(p: Patterns, texts: seq<string>, d: RatingData)
    ensures var fs := FramesOf(ClassifyAll(p, texts));
            |Window(fs)| <= 46340 ==>
              Calculated(DescribeAll(AcceptAll(FRESH, ClassifyAll(p, texts)).linesToRate), d).usefulness
              == ExactVerdict(fs)
  {
    InputFramesAreRated(p, texts);
    var fs := FramesOf(ClassifyAll(p, texts));
    if |Window(fs)| <= 46340 {
      MachineVerdictIsExact(fs);
    }
  }
}
