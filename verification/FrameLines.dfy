/** What a line of the trace is and how a stack frame is rated, stated about gdb's own text. */
module FrameLines {
  import opened Sequences
  import opened BacktraceLines
  import opened GdbParserModel

  // ---- Kinds ----

  /** One of the three texts that are looked for before any expression is tried. */
  predicate IsFixed(text: string) {
    text == "\n" || text == "[KCrash Handler]\n" || Contains(text, "<signal handler called>")
  }

  predicate IsFrame(p: Patterns, text: string) {
    !IsFixed(text) && p.frame(text).Some?
  }

  predicate IsInfo(p: Patterns, text: string) {
    !IsFixed(text) && p.frame(text).None? && Contains(text, "KCRASH_INFO_MESSAGE: ")
  }

  predicate IsOther(p: Patterns, text: string) {
    !IsFixed(text) && p.frame(text).None? && !Contains(text, "KCRASH_INFO_MESSAGE: ")
  }

  /** Every kind of line, by the text alone: the first test that applies decides. */
  lemma KindIsFirstTest(p: Patterns, text: string)
    ensures var kind := Classify(p, text).kind;
            && (kind == EmptyLine <==> text == "\n")
            && (kind == KCrash <==> text == "[KCrash Handler]\n")
            && (kind == SignalHandlerStart <==>
                  text != "\n" && text != "[KCrash Handler]\n" && Contains(text, "<signal handler called>"))
            && (kind == StackFrame <==> IsFrame(p, text))
            && (kind == Info <==> IsInfo(p, text))
            && (kind == Crap <==> IsOther(p, text) && p.crap(text))
            && (kind == ThreadStart <==> IsOther(p, text) && !p.crap(text) && p.threadStart(text))
            && (kind == ThreadIndicator <==>
                  IsOther(p, text) && !p.crap(text) && !p.threadStart(text) && p.threadIndicator(text))
  {
  }

  /** Only a stack frame says anything about a function; every other line has the defaults. */
  lemma OthersSayNothing(p: Patterns, text: string)
    requires !IsFrame(p, text)
    ensures var line := Classify(p, text);
            && line.rating.Value() == -1 && line.frameNumber == -1
            && line.functionName == "??" && line.fileName == "" && line.libraryName == ""
  {
  }

  lemma MarkerIs()
    ensures HandlerMarker().text == "[KCrash Handler]\n" && HandlerMarker().kind == KCrash
    ensures HandlerMarker().rating.Value() == -1 && HandlerMarker().functionName == "??"
  {
  }

  // ---- Ratings ----

  predicate Known(functionName: string) {
    functionName != "" && functionName != "??"
  }

  /** A frame's value: 4 with a source file; else 2 more for a known function, 1 more for a known library. */
  lemma FrameIsRated(p: Patterns, text: string)
    requires IsFrame(p, text)
    ensures var line, f := Classify(p, text), p.frame(text).value;
            && line.frameNumber == f.number && line.functionName == Trimmed(f.functionName)
            && (if f.location.None? then line.fileName == line.libraryName == ""
                else if IsSourceFile(f.location.value) then
                  line.fileName == f.location.value.path && line.libraryName == ""
                else line.fileName == "" && line.libraryName == f.location.value.path)
            && line.rating.Value()
               == if line.fileName != "" then 4
                  else (if Known(line.functionName) then 2 else 0) + (if line.libraryName != "" then 1 else 0)
  {
  }

  // ---- Information lines ----

  /** A line that announces a message is kept from where the message begins exactly when nothing stands in front. */
  lemma InfoExactly(front: string, message: string)
    ensures InfoText(front + "KCRASH_INFO_MESSAGE: " + message) == message <==> front == ""
  {
    var text := front + "KCRASH_INFO_MESSAGE: " + message;
    assert |text| == |front| + 21 + |message|;
    assert |InfoText(text)| == |front| + |message|;
    assert front == "" ==> text[21..] == message;
  }
}
