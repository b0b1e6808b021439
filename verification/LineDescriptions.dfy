/** What calculateRatingData finds out about a line by looking at its texts. */
module LineDescriptions {
  import opened Sequences
  import opened BacktraceLines
  import opened LineRules
  import opened Rating
  import opened SimplifiedBacktrace
  import opened RatingReport

  function Describe(line: BacktraceLine): RatedLine {
    RatedLine(
      Frame(line.rating.Value(), LineIsStackBase(line), LineIsStackTop(line), LineShouldBeIgnored(line)),
      Contains(line.text, COMPOSITOR_GONE),
      Trimmed(line.libraryName),
      Item(line.text, !LineShouldBeIgnored(line) && IsFunctionUseful(line)))
  }

  predicate IsRated(line: BacktraceLine) {
    line.kind.StackFrame? && !line.rating.InvalidRating?
  }

  /** A rated frame is a valid frame for the rating: its value is 0 to 4, and bases and tops have a function name. */
  lemma DescriptionIsValid(line: BacktraceLine)
    ensures Describe(line).frame.Valid()
    ensures IsRated(line) ==> 0 <= Describe(line).frame.rating <= 4
  {
  }

  function DescribeAll(lines: seq<BacktraceLine>): (r: seq<RatedLine>)
    ensures |r| == |lines| && forall i :: 0 <= i < |lines| ==> r[i] == Describe(lines[i])
  {
    Map(Describe, lines)
  }

  lemma DescriptionsAreValid(lines: seq<BacktraceLine>)
    ensures AllValid(Frames(DescribeAll(lines)))
  {
    forall i | 0 <= i < |lines|
      ensures Frames(DescribeAll(lines))[i].Valid()
    {
      DescriptionIsValid(lines[i]);
    }
  }
}
