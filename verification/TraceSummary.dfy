/** The simplified backtrace of a whole trace, as a parser that has just read it answers. */
module TraceSummary {
  import opened Sequences
  import opened BacktraceLines
  import opened GdbParserModel
  import opened FrameLines
  import opened SimplifiedBacktrace
  import opened RatingReport
  import opened LineDescriptions
  import opened SummaryLaws
  import opened TraceVerdict

  /** No frame line of the trace is shorter than the gap marker or ends in it. */
  predicate PlainFrames(p: Patterns, texts: seq<string>) {
    forall i :: 0 <= i < |texts| && IsFrame(p, texts[i]) ==>
      |texts[i]| >= 6 && texts[i][|texts[i]| - 6..] != "[...]\n"
  }

  lemma RatedIsPlain(p: Patterns, texts: seq<string>, line: BacktraceLine)
    requires PlainFrames(p, texts) && line in AcceptAll(FRESH, ClassifyAll(p, texts)).linesToRate
    ensures PlainText(Describe(line).item)
  {
    var lines := ClassifyAll(p, texts);
    RatedAreInputFrames(lines);
    var k :| 0 <= k < |lines| && lines[k] == line;
    assert lines[k] == Classify(p, texts[k]);
    KindIsFirstTest(p, texts[k]);
  }

  /** After any trace, however often it is asked, the parser shows the first sixteen useful frames it has rated, in
      order, with gaps exactly where garbage follows. */
  lemma AnswerShows(p: Patterns, texts: seq<string>, n: nat) returns (shown: seq<nat>, pieces: seq<string>)
    requires n > 0 && PlainFrames(p, texts)
    ensures var lines := DescribeAll(AcceptAll(FRESH, ClassifyAll(p, texts)).linesToRate);
            && Lists(Items(lines), shown, 0, 0) && Spells(Items(lines), shown, 0, pieces)
            && Accessed(lines, NO_DATA, n).simplifiedBacktrace == Concat(pieces)
  {
    var rated := AcceptAll(FRESH, ClassifyAll(p, texts)).linesToRate;
    var lines := DescribeAll(rated);
    forall i | 0 <= i < |lines|
      ensures PlainText(Items(lines)[i])
    {
      RatedIsPlain(p, texts, rated[i]);
    }
    OneCalculation(lines, NO_DATA, n);
    shown, pieces := SummaryIs(lines, NO_DATA);
    assert "" + Concat(pieces) == Concat(pieces);
  }
}
