/** BacktraceParser and BacktraceParserGdb as one object that newLine and the accessors update in place. */
module BacktraceParserGdb {
  import opened BacktraceLines
  import opened LineJoining
  import opened GdbParserModel
  import opened Rating
  import opened RatingReport
  import opened LineDescriptions
  import opened RatingLoops
  import opened VisibleLines

  class BacktraceParserGdb {
    const patterns: Patterns
    // BacktraceParserPrivate
    var m_infoLines: seq<string>
    var m_linesList: seq<BacktraceLine>
    var m_linesToRate: seq<BacktraceLine>
    var m_simplifiedBacktrace: string
    var m_librariesWithMissingDebugSymbols: seq<string>
    var m_usefulness: Usefulness
    var m_compositorCrashed: bool
    // BacktraceParserGdbPrivate
    var m_lineInputBuffer: string
    var m_possibleKCrashStart: nat
    var m_threadsCount: nat
    var m_isBelowSignalHandler: bool
    var m_frameZeroAppeared: bool

    ghost function Machine(): ParserState
      reads this`m_infoLines, this`m_linesList, this`m_linesToRate, this`m_possibleKCrashStart, this`m_threadsCount
      reads this`m_isBelowSignalHandler, this`m_frameZeroAppeared
    {
      ParserState(m_infoLines, m_linesList, m_linesToRate, m_possibleKCrashStart, m_threadsCount,
                  m_isBelowSignalHandler, m_frameZeroAppeared)
    }

    function Data(): RatingData
      reads this`m_simplifiedBacktrace, this`m_librariesWithMissingDebugSymbols
      reads this`m_usefulness, this`m_compositorCrashed
    {
      RatingData(m_simplifiedBacktrace, m_librariesWithMissingDebugSymbols, m_usefulness, m_compositorCrashed)
    }

    ghost predicate Valid()
      reads this`m_infoLines, this`m_linesList, this`m_linesToRate, this`m_possibleKCrashStart, this`m_threadsCount
      reads this`m_isBelowSignalHandler, this`m_frameZeroAppeared
    {
      Machine().Valid()
    }

    constructor (patterns: Patterns)
      ensures Valid() && this.patterns == patterns
      ensures Machine() == FRESH && Data() == NO_DATA && m_lineInputBuffer == ""
    {
      this.patterns := patterns;
      m_infoLines, m_linesList, m_linesToRate := [], [], [];
      m_simplifiedBacktrace, m_librariesWithMissingDebugSymbols := "", [];
      m_usefulness, m_compositorCrashed := InvalidUsefulness, false;
      m_lineInputBuffer := "";
      m_possibleKCrashStart, m_threadsCount := 0, 0;
      m_isBelowSignalHandler, m_frameZeroAppeared := false, false;
    }

    method ResetMachine()
      modifies this`m_infoLines, this`m_linesList, this`m_linesToRate, this`m_possibleKCrashStart, this`m_threadsCount
      modifies this`m_isBelowSignalHandler, this`m_frameZeroAppeared
      ensures Machine() == FRESH
    {
      m_infoLines, m_linesList, m_linesToRate := [], [], [];
      m_possibleKCrashStart, m_threadsCount := 0, 0;
      m_isBelowSignalHandler, m_frameZeroAppeared := false, false;
    }

    method StoreData(d: RatingData)
      modifies this`m_simplifiedBacktrace, this`m_librariesWithMissingDebugSymbols
      modifies this`m_usefulness, this`m_compositorCrashed
      ensures Data() == d
    {
      m_simplifiedBacktrace := d.simplifiedBacktrace;
      m_librariesWithMissingDebugSymbols := d.librariesWithMissingDebugSymbols;
      m_usefulness := d.usefulness;
      m_compositorCrashed := d.compositorCrashed;
    }

    /** A new private object replaces the old one. */
    method ResetState()
      modifies this
      ensures Valid()
      ensures Machine() == FRESH && Data() == NO_DATA && m_lineInputBuffer == ""
    {
      ResetMachine();
      StoreData(NO_DATA);
      m_lineInputBuffer := "";
    }

    method ParseLine(lineStr: string)
      requires Valid()
      modifies this`m_infoLines, this`m_linesList, this`m_linesToRate, this`m_possibleKCrashStart, this`m_threadsCount
      modifies this`m_isBelowSignalHandler, this`m_frameZeroAppeared
      ensures Valid()
      ensures Machine() == Accept(old(Machine()), Classify(patterns, lineStr))
    {
      var line := Classify(patterns, lineStr);
      match line.kind {
        case Crap =>
        case Info =>
          m_infoLines := m_infoLines + [InfoText(line.text)];
        case ThreadStart =>
          m_linesList := m_linesList + [line];
          m_possibleKCrashStart := |m_linesList|;
          m_threadsCount := m_threadsCount + 1;
          m_isBelowSignalHandler := false;
          m_frameZeroAppeared := false;
        case SignalHandlerStart =>
          if !m_isBelowSignalHandler {
            m_linesList := m_linesList[..m_possibleKCrashStart];
            m_linesList :=
              m_linesList[..m_possibleKCrashStart] + [HandlerMarker()] + m_linesList[m_possibleKCrashStart..];
            m_isBelowSignalHandler := true;
          } else {
            m_linesList := m_linesList + [line];
          }
        case StackFrame =>
          if line.frameNumber == 0 {
            if m_frameZeroAppeared {
              return;
            } else {
              m_frameZeroAppeared := true;
            }
          }
          if m_isBelowSignalHandler {
            m_linesToRate := m_linesToRate + [line];
          }
          m_linesList := m_linesList + [line];
        case _ =>
          m_linesList := m_linesList + [line];
      }
    }

    method NewLine(lineStr: string)
      requires Valid()
      modifies this
      ensures Valid() && Data() == old(Data())
      ensures m_lineInputBuffer == Push(old(m_lineInputBuffer), lineStr).buffer
      ensures Machine()
           == AcceptAll(old(Machine()), ClassifyAll(patterns, Push(old(m_lineInputBuffer), lineStr).lines))
    {
      if m_lineInputBuffer == "" {
        m_lineInputBuffer := lineStr;
      } else if IsContinuation(lineStr) {
        m_lineInputBuffer := m_lineInputBuffer + lineStr;
      } else {
        ghost var before := Machine();
        ghost var lines := ClassifyAll(patterns, [m_lineInputBuffer]);
        assert lines[..|lines| - 1] == [];
        assert AcceptAll(before, lines) == Accept(AcceptAll(before, []), lines[0]);
        ParseLine(m_lineInputBuffer);
        m_lineInputBuffer := lineStr;
      }
    }

    method NewLineInternal()
      modifies this`m_usefulness
      ensures m_usefulness == InvalidUsefulness
    {
      m_usefulness := InvalidUsefulness;
    }

    method CalculateRatingData()
      modifies this`m_simplifiedBacktrace, this`m_librariesWithMissingDebugSymbols
      modifies this`m_usefulness, this`m_compositorCrashed
      ensures Data() == Calculated(DescribeAll(m_linesToRate), old(Data()))
    {
      DescriptionsAreValid(m_linesToRate);
      var r := Calculate(DescribeAll(m_linesToRate), Data());
      StoreData(r);
    }

    // ---- Accessors ----

    method SimplifiedBacktrace() returns (r: string)
      modifies this`m_simplifiedBacktrace, this`m_librariesWithMissingDebugSymbols
      modifies this`m_usefulness, this`m_compositorCrashed
      ensures Data() == Refreshed(DescribeAll(m_linesToRate), old(Data())) && r == Data().simplifiedBacktrace
    {
      if m_usefulness == InvalidUsefulness {
        CalculateRatingData();
      }
      r := m_simplifiedBacktrace;
    }

    method BacktraceUsefulness() returns (r: Usefulness)
      modifies this`m_simplifiedBacktrace, this`m_librariesWithMissingDebugSymbols
      modifies this`m_usefulness, this`m_compositorCrashed
      ensures Data() == Refreshed(DescribeAll(m_linesToRate), old(Data()))
      ensures r == Data().usefulness != InvalidUsefulness
    {
      if m_usefulness == InvalidUsefulness {
        CalculateRatingData();
      }
      r := m_usefulness;
    }

    method LibrariesWithMissingDebugSymbols() returns (r: seq<string>)
      modifies this`m_simplifiedBacktrace, this`m_librariesWithMissingDebugSymbols
      modifies this`m_usefulness, this`m_compositorCrashed
      ensures Data() == Refreshed(DescribeAll(m_linesToRate), old(Data()))
      ensures r == Data().librariesWithMissingDebugSymbols
    {
      if m_usefulness == InvalidUsefulness {
        CalculateRatingData();
      }
      r := m_librariesWithMissingDebugSymbols;
    }

    method HasCompositorCrashed() returns (r: bool)
      modifies this`m_simplifiedBacktrace, this`m_librariesWithMissingDebugSymbols
      modifies this`m_usefulness, this`m_compositorCrashed
      ensures Data() == Refreshed(DescribeAll(m_linesToRate), old(Data())) && r == Data().compositorCrashed
    {
      if m_usefulness == InvalidUsefulness {
        CalculateRatingData();
      }
      r := m_compositorCrashed;
    }

    /** With a single thread its indicator, header and empty lines are left out. */
    method ParsedBacktraceLines() returns (result: seq<BacktraceLine>)
      ensures result == Visible(m_linesList, m_threadsCount)
    {
      result := [];
      for i := 0 to |m_linesList|
        invariant result == Visible(m_linesList[..i], m_threadsCount)
      {
        assert m_linesList[..i + 1][..i] == m_linesList[..i];
        var kind := m_linesList[i].kind;
        if m_threadsCount == 1 && (kind.ThreadIndicator? || kind.ThreadStart? || kind.EmptyLine?) {
          continue;
        }
        result := result + [m_linesList[i]];
      }
      assert m_linesList[..|m_linesList|] == m_linesList;
    }

    method ParsedBacktrace() returns (result: string)
      ensures result == Texts(Visible(m_linesList, m_threadsCount))
    {
      result := "";
      for i := 0 to |m_linesList|
        invariant result == Texts(Visible(m_linesList[..i], m_threadsCount))
      {
        assert m_linesList[..i + 1][..i] == m_linesList[..i];
        var kind := m_linesList[i].kind;
        if m_threadsCount == 1 && (kind.ThreadIndicator? || kind.ThreadStart? || kind.EmptyLine?) {
          continue;
        }
        ghost var shown := Visible(m_linesList[..i], m_threadsCount);
        assert (shown + [m_linesList[i]])[..|shown|] == shown;
        result := result + m_linesList[i].text;
      }
      assert m_linesList[..|m_linesList|] == m_linesList;
    }
  }
}
