/** Invariants of every state BacktraceParserGdb can reach. */
module GdbParserInvariants {
  import opened Sequences
  import opened BacktraceLines
  import opened GdbParserModel

  /** Rated frames are shown frames, and until a thread's handler is met the erase cannot reach them. */
  ghost predicate RatedIsSafe(s: ParserState)
    requires s.Valid()
  {
    && IsSubsequence(s.linesToRate, s.linesList)
    && (!s.isBelowSignalHandler ==> IsSubsequence(s.linesToRate, s.linesList[..s.possibleKCrashStart]))
  }

  lemma RatedSafeAppend(s: ParserState, x: BacktraceLine)
    requires s.Valid() && RatedIsSafe(s) && !x.kind.ThreadStart? && !Dropped(x, s.frameZeroAppeared)
    requires IsHandler(x) ==> s.isBelowSignalHandler
    ensures RatedIsSafe(Accept(s, x)) && s.linesToRate <= Accept(s, x).linesToRate
  {
    AcceptAppends(s, x);
    assert (s.linesList + [x])[..s.possibleKCrashStart] == s.linesList[..s.possibleKCrashStart];
    if x.kind.StackFrame? && s.isBelowSignalHandler {
      SubsequenceBoth(s.linesToRate, s.linesList, x);
    } else {
      SubsequenceGrows(s.linesToRate, s.linesList, [x]);
      assert s.linesToRate + [] == s.linesToRate;
    }
  }

  lemma RatedSafeHandler(s: ParserState, x: BacktraceLine)
    requires s.Valid() && RatedIsSafe(s) && IsHandler(x) && !s.isBelowSignalHandler
    ensures RatedIsSafe(Accept(s, x)) && s.linesToRate == Accept(s, x).linesToRate
  {
    SubsequenceGrows(s.linesToRate, s.linesList[..s.possibleKCrashStart], [HandlerMarker()]);
  }

  lemma RatedSafeThread(s: ParserState, x: BacktraceLine)
    requires s.Valid() && RatedIsSafe(s) && IsThreadStart(x)
    ensures RatedIsSafe(Accept(s, x)) && s.linesToRate == Accept(s, x).linesToRate
  {
    SubsequenceGrows(s.linesToRate, s.linesList, [x]);
    assert (s.linesList + [x])[..|s.linesList| + 1] == s.linesList + [x];
  }

  /** One line, whatever it is, takes no frame away from the rating and keeps the two lists in step. */
  lemma RatedStaysSafe(s: ParserState, x: BacktraceLine)
    requires s.Valid() && RatedIsSafe(s)
    ensures RatedIsSafe(Accept(s, x)) && s.linesToRate <= Accept(s, x).linesToRate
  {
    if IsThreadStart(x) {
      RatedSafeThread(s, x);
    } else if IsHandler(x) && !s.isBelowSignalHandler {
      RatedSafeHandler(s, x);
    } else if !Dropped(x, s.frameZeroAppeared) {
      RatedSafeAppend(s, x);
    }
  }

  /** Over every input the erase stays in bounds and drops no rated frame. */
  lemma {:induction false} EveryStateIsSafe(lines: seq<BacktraceLine>)
    ensures RatedIsSafe(AcceptAll(FRESH, lines))
  {
    if lines != [] {
      EveryStateIsSafe(lines[..|lines| - 1]);
      RatedStaysSafe(AcceptAll(FRESH, lines[..|lines| - 1]), lines[|lines| - 1]);
    }
  }
}
