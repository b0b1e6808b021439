/** The two-list state machine of BacktraceParserGdb::parseLine. */
module GdbParserModel {
  import opened BacktraceLines

  datatype ParserState = ParserState(
    infoLines: seq<string>,
    linesList: seq<BacktraceLine>,
    linesToRate: seq<BacktraceLine>,
    possibleKCrashStart: nat,
    threadsCount: nat,
    isBelowSignalHandler: bool,
    frameZeroAppeared: bool)
  {
    /** The erase of the signal handler branch stays inside the list. */
    predicate Valid() {
      possibleKCrashStart <= |linesList|
    }
  }

  const FRESH := ParserState([], [], [], 0, 0, false, false)

  function InfoText(text: string): string {
    if |text| < |KCRASH_INFO_MESSAGE| then "" else text[|KCRASH_INFO_MESSAGE|..]
  }

  /** One call of parseLine, on an already classified line. */
  function Accept(s: ParserState, line: BacktraceLine): (r: ParserState)
    requires s.Valid()
    ensures r.Valid()
  {
    match line.kind
    case Crap => s
    case Info => s.(infoLines := s.infoLines + [InfoText(line.text)])
    case ThreadStart =>
      s.(linesList := s.linesList + [line], possibleKCrashStart := |s.linesList| + 1,
         threadsCount := s.threadsCount + 1, isBelowSignalHandler := false, frameZeroAppeared := false)
    case SignalHandlerStart =>
      if !s.isBelowSignalHandler then
        s.(linesList := s.linesList[..s.possibleKCrashStart] + [HandlerMarker()], isBelowSignalHandler := true)
      else
        s.(linesList := s.linesList + [line])
    case StackFrame =>
      if line.frameNumber == 0 && s.frameZeroAppeared then s
      else
        s.(linesList := s.linesList + [line],
           frameZeroAppeared := s.frameZeroAppeared || line.frameNumber == 0,
           linesToRate := if s.isBelowSignalHandler then s.linesToRate + [line] else s.linesToRate)
    case _ => s.(linesList := s.linesList + [line])
  }

  /** parseLine on every line in turn. */
  function AcceptAll(s: ParserState, lines: seq<BacktraceLine>): (r: ParserState)
    requires s.Valid()
    ensures r.Valid()
  {
    if lines == [] then s else Accept(AcceptAll(s, lines[..|lines| - 1]), lines[|lines| - 1])
  }

  lemma {:induction false} AcceptAllAppend(s: ParserState, xs: seq<BacktraceLine>, ys: seq<BacktraceLine>)
    requires s.Valid()
    ensures AcceptAll(s, xs + ys) == AcceptAll(AcceptAll(s, xs), ys)
    decreases |ys|
  {
    if ys == [] {
      assert xs + ys == xs;
    } else {
      AcceptAllAppend(s, xs, ys[..|ys| - 1]);
      assert (xs + ys)[..|xs + ys| - 1] == xs + ys[..|ys| - 1];
    }
  }

  predicate IsFrameZero(line: BacktraceLine) {
    line.kind.StackFrame? && line.frameNumber == 0
  }

  predicate IsHandler(line: BacktraceLine) {
    line.kind.SignalHandlerStart?
  }

  predicate IsThreadStart(line: BacktraceLine) {
    line.kind.ThreadStart?
  }

  /** Is x left out of the report, given whether its thread already had a frame 0? */
  predicate Dropped(x: BacktraceLine, seen: bool) {
    x.kind.Crap? || x.kind.Info? || (IsFrameZero(x) && seen)
  }

  /** A line that is neither dropped, nor a thread header, nor the first handler is just appended. */
  lemma AcceptAppends(s: ParserState, x: BacktraceLine)
    requires s.Valid() && !x.kind.ThreadStart? && !Dropped(x, s.frameZeroAppeared)
    requires IsHandler(x) ==> s.isBelowSignalHandler
    ensures Accept(s, x) == s.(
      linesList := s.linesList + [x],
      linesToRate := s.linesToRate + (if x.kind.StackFrame? && s.isBelowSignalHandler then [x] else []),
      frameZeroAppeared := s.frameZeroAppeared || IsFrameZero(x))
  {
    assert s.linesToRate + [] == s.linesToRate;
  }
}
