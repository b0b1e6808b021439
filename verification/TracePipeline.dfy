/** From debugger output bytes to the parser's report: chunks, lines, logical lines, threads. */
module TracePipeline {
  import opened Sequences
  import opened BacktraceLines
  import opened LineSplitting
  import opened LineJoining
  import opened GdbParserModel
  import opened GdbThreads

  /** The gdb parser: parseLine's state and the join buffer. */
  datatype Reader = Reader(machine: ParserState, buffer: string)
  {
    predicate Valid() {
      machine.Valid()
    }
  }

  const NEW_READER := Reader(FRESH, "")

  /** One newLine signal. */
  function Feed(p: Patterns, r: Reader, line: string): (r': Reader)
    requires r.Valid()
    ensures r'.Valid()
  {
    var j := Push(r.buffer, line);
    Reader(AcceptAll(r.machine, ClassifyAll(p, j.lines)), j.buffer)
  }

  function FeedAll(p: Patterns, r: Reader, lines: seq<string>): (r': Reader)
    requires r.Valid()
    ensures r'.Valid()
  {
    if lines == [] then r else Feed(p, FeedAll(p, r, lines[..|lines| - 1]), lines[|lines| - 1])
  }

  lemma FeedNext(p: Patterns, r: Reader, decode: seq<byte> -> string, taken: seq<seq<byte>>, line: seq<byte>)
    requires r.Valid()
    ensures FeedAll(p, r, Map(decode, taken + [line])) == Feed(p, FeedAll(p, r, Map(decode, taken)), decode(line))
  {
    assert Map(decode, taken + [line])[..|taken|] == Map(decode, taken);
  }

  lemma FeedAllLast(p: Patterns, r: Reader, front: seq<string>, line: string)
    requires r.Valid()
    ensures FeedAll(p, r, front + [line]) == Feed(p, FeedAll(p, r, front), line)
  {
    assert (front + [line])[..|front|] == front;
  }

  lemma {:induction false} FeedAllAppend(p: Patterns, r: Reader, xs: seq<string>, ys: seq<string>)
    requires r.Valid()
    ensures FeedAll(p, r, xs + ys) == FeedAll(p, FeedAll(p, r, xs), ys)
    decreases |ys|
  {
    if ys == [] {
      assert xs + ys == xs;
    } else {
      var front, line := ys[..|ys| - 1], ys[|ys| - 1];
      assert ys == front + [line];
      assert xs + ys == xs + front + [line];
      FeedAllLast(p, r, xs + front, line);
      FeedAllLast(p, FeedAll(p, r, xs), front, line);
      FeedAllAppend(p, r, xs, front);
    }
  }

  lemma ClassifyAppend(p: Patterns, xs: seq<string>, ys: seq<string>)
    ensures ClassifyAll(p, xs + ys) == ClassifyAll(p, xs) + ClassifyAll(p, ys)
  {
  }

  lemma PushLast(buffer: string, lines: seq<string>, line: string)
    ensures var j := PushAll(buffer, lines);
            var k := Push(j.buffer, line);
            PushAll(buffer, lines + [line]) == Joined(j.lines + k.lines, k.buffer)
  {
    PushAllAppend(buffer, lines, [line]);
    var k := Push(PushAll(buffer, lines).buffer, line);
    assert PushAll(k.buffer, [line][1..]) == Joined([], k.buffer);
    assert k.lines + [] == k.lines;
  }

  /** Joining first and parsing afterwards gives the same as doing both line by line. */
  lemma {:induction false} FeedIsJoinThenParse(p: Patterns, r: Reader, lines: seq<string>)
    requires r.Valid()
    ensures var j := PushAll(r.buffer, lines);
            FeedAll(p, r, lines) == Reader(AcceptAll(r.machine, ClassifyAll(p, j.lines)), j.buffer)
    decreases |lines|
  {
    if lines == [] {
      assert ClassifyAll(p, []) == [];
    } else {
      var front, last := lines[..|lines| - 1], lines[|lines| - 1];
      FeedIsJoinThenParse(p, r, front);
      assert lines == front + [last];
      PushLast(r.buffer, front, last);
      var j := PushAll(r.buffer, front);
      var k := Push(j.buffer, last);
      ClassifyAppend(p, j.lines, k.lines);
      AcceptAllAppend(r.machine, ClassifyAll(p, j.lines), ClassifyAll(p, k.lines));
    }
  }

  /** A local 8-bit decoder gives at least one character for a complete line. */
  ghost predicate Decodes(decode: seq<byte> -> string) {
    forall line :: IsLine(line) ==> decode(line) != ""
  }

  /** The parser after one debugger run: its output in chunks, then the closing empty line. */
  function ReaderAfter(p: Patterns, decode: seq<byte> -> string, rest: seq<byte>, chunks: seq<seq<byte>>): (r: Reader)
    ensures r.Valid()
  {
    FeedAll(p, NEW_READER, Map(decode, ReadAll(rest, chunks).lines) + [""])
  }

  /** Reading one more chunk: what slotReadInput feeds the parser continues what it has been fed before. */
  lemma ReadingContinues(p: Patterns, r: Reader, decode: seq<byte> -> string, rest: seq<byte>, chunks: seq<seq<byte>>,
                         chunk: seq<byte>)
    requires r.Valid()
    ensures var before := ReadAll(rest, chunks);
            var now := Cut(before.rest + chunk);
            && ReadAll(rest, chunks + [chunk]) == Split(before.lines + now.lines, now.rest)
            && FeedAll(p, r, Map(decode, ReadAll(rest, chunks + [chunk]).lines))
               == FeedAll(p, FeedAll(p, r, Map(decode, before.lines)), Map(decode, now.lines))
  {
    assert (chunks + [chunk])[..|chunks|] == chunks;
    var before := ReadAll(rest, chunks);
    var now := Cut(before.rest + chunk);
    MapAppend(decode, before.lines, now.lines);
    FeedAllAppend(p, r, Map(decode, before.lines), Map(decode, now.lines));
  }

  /** The logical lines of a debugger's output. */
  function LogicalLines(decode: seq<byte> -> string, bytes: seq<byte>): seq<string> {
    Logical(Map(decode, Cut(bytes).lines))
  }

  lemma DecodedNotEmpty(decode: seq<byte> -> string, bytes: seq<byte>)
    requires Decodes(decode)
    ensures NoneEmpty(Map(decode, Cut(bytes).lines))
  {
    CutIsSplit(bytes);
    assert forall i :: 0 <= i < |Cut(bytes).lines| ==> IsLine(Cut(bytes).lines[i]);
  }

  /** Main pipeline result: however the bytes were chunked, the report is that of the threads of their logical lines,
      and nothing is left waiting in the join buffer. */
  lemma ReportDependsOnBytesOnly(p: Patterns, decode: seq<byte> -> string, rest: seq<byte>, chunks: seq<seq<byte>>)
    requires Decodes(decode) && NEWLINE !in rest
    ensures var lines := ClassifyAll(p, LogicalLines(decode, rest + Concat(chunks)));
            && ReaderAfter(p, decode, rest, chunks) == Reader(AcceptAll(FRESH, lines), "")
            && ReaderAfter(p, decode, rest, chunks).machine.linesList == ShownAll(Threads(lines))
            && ReaderAfter(p, decode, rest, chunks).machine.linesToRate == RatedAll(Threads(lines))
  {
    var bytes := rest + Concat(chunks);
    ChunksDoNotMatter(rest, chunks);
    DecodedNotEmpty(decode, bytes);
    var lines := Map(decode, Cut(bytes).lines);
    FeedIsJoinThenParse(p, NEW_READER, lines + [""]);
    JoiningIsLogical(lines);
    ReportIsThreads(ClassifyAll(p, Logical(lines)));
  }

  /** The logical lines spell out exactly the complete lines of the output. */
  lemma LogicalLinesKeepText(decode: seq<byte> -> string, bytes: seq<byte>)
    ensures Concat(LogicalLines(decode, bytes)) == Concat(Map(decode, Cut(bytes).lines))
  {
    LogicalKeepsText(Map(decode, Cut(bytes).lines));
  }
}
