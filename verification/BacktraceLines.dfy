/** Lines of a debugger trace: src/parser/backtraceline.h and BacktraceLineGdb. */
module BacktraceLines {
  import opened Sequences

  datatype LineType =
    Unknown | EmptyLine | Crap | KCrash | ThreadIndicator | ThreadStart | SignalHandlerStart | StackFrame | Info

  datatype LineRating = MissingEverything | MissingFunction | MissingLibrary | MissingSourceFile | Good | InvalidRating
  {
    function Value(): int {
      match this
      case MissingEverything => 0
      case MissingFunction => 1
      case MissingLibrary => 2
      case MissingSourceFile => 3
      case Good => 4
      case InvalidRating => -1
    }
  }

  datatype BacktraceLine = BacktraceLine(
    text: string,
    kind: LineType,
    rating: LineRating,
    frameNumber: int,
    functionName: string,
    fileName: string,
    libraryName: string)

  /** The optional end of a frame line: "at" or "from", and a path. */
  datatype Location = Location(at: bool, path: string)

  /** What the stack frame expression captures. */
  datatype FrameMatch = FrameMatch(number: nat, functionName: string, location: Option<Location>)

  /** The regular expressions of BacktraceLineGdb::parse, left abstract. */
  datatype Patterns = Patterns(
    frame: string -> Option<FrameMatch>,
    crap: string -> bool,
    threadStart: string -> bool,
    threadIndicator: string -> bool)

  const KCRASH_INFO_MESSAGE := "KCRASH_INFO_MESSAGE: "
  const KCRASH_HANDLER := "[KCrash Handler]\n"
  const SIGNAL_HANDLER := "<signal handler called>"
  const UNKNOWN_FUNCTION := "??"

  function BaseName(path: string): string {
    path[LastIndexOf(path, '/') + 1..]
  }

  function BehindDot(name: string): string {
    if '.' in name then name[IndexOf(name, '.') + 1..] else ""
  }

  /** QFileInfo::completeSuffix: behind the first '.' of the file name. */
  function CompleteSuffix(path: string): string {
    BehindDot(BaseName(path))
  }

  /** gdb says "at" for a library, too, now and then. */
  predicate IsSourceFile(l: Location) {
    var suffix := CompleteSuffix(l.path);
    l.at && suffix != "so" && !StartsWith(suffix, "so.") && !Contains(suffix, ".so")
  }

  function FileName(location: Option<Location>): string {
    if location.Some? && IsSourceFile(location.value) then location.value.path else ""
  }

  function LibraryName(location: Option<Location>): string {
    if location.Some? && !IsSourceFile(location.value) then location.value.path else ""
  }

  function Rate(functionName: string, fileName: string, libraryName: string): LineRating {
    var noFunction := functionName == UNKNOWN_FUNCTION || functionName == "";
    if fileName != "" then Good
    else if libraryName != "" then (if noFunction then MissingFunction else MissingSourceFile)
    else if noFunction then MissingEverything
    else MissingLibrary
  }

  function Plain(text: string, kind: LineType): BacktraceLine {
    BacktraceLine(text, kind, InvalidRating, -1, UNKNOWN_FUNCTION, "", "")
  }

  /** BacktraceLineGdb's constructor: classification in the order of the source, then the rating. */
  function Classify(p: Patterns, text: string): (line: BacktraceLine)
    ensures line.text == text
    ensures line.kind.KCrash? <==> text == KCRASH_HANDLER
    ensures line.kind.StackFrame? <==> !line.rating.InvalidRating?
    ensures line.kind.StackFrame? ==> line.frameNumber >= 0
  {
    if text == "\n" then Plain(text, EmptyLine)
    else if text == KCRASH_HANDLER then Plain(text, KCrash)
    else if Contains(text, SIGNAL_HANDLER) then Plain(text, SignalHandlerStart)
    else
      var m := p.frame(text);
      if m.Some? then
        var f := m.value;
        var functionName, fileName, libraryName :=
          Trimmed(f.functionName), FileName(f.location), LibraryName(f.location);
        BacktraceLine(text, StackFrame, Rate(functionName, fileName, libraryName),
                      f.number, functionName, fileName, libraryName)
      else if Contains(text, KCRASH_INFO_MESSAGE) then Plain(text, Info)
      else if p.crap(text) then Plain(text, Crap)
      else if p.threadStart(text) then Plain(text, ThreadStart)
      else if p.threadIndicator(text) then Plain(text, ThreadIndicator)
      else Plain(text, Unknown)
  }

  /** The classified form of complete lines. */
  function ClassifyAll(p: Patterns, texts: seq<string>): (r: seq<BacktraceLine>)
    ensures |r| == |texts| && forall i :: 0 <= i < |texts| ==> r[i] == Classify(p, texts[i])
  {
    seq(|texts|, i requires 0 <= i < |texts| => Classify(p, texts[i]))
  }

  /** The line that stands in for KCrash's own frames. */
  function HandlerMarker(): BacktraceLine {
    Plain(KCRASH_HANDLER, KCrash)
  }
}
