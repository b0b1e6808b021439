/** BacktraceGenerator::slotReadInput's line splitting, and why chunk boundaries do not matter. */
module LineSplitting {
  import opened Sequences

  /** The lines handed on, newline included, and what stays in m_output. */
  datatype Split = Split(lines: seq<seq<byte>>, rest: seq<byte>)

  /** The read loop: take lines off the front until no newline is left. */
  function Cut(output: seq<byte>): Split
    decreases |output|
  {
    var pos := IndexOf(output, NEWLINE);
    if pos == -1 then Split([], output)
    else
      var s := Cut(output[pos + 1..]);
      Split([output[..pos + 1]] + s.lines, s.rest)
  }

  /** One turn of the read loop moves the first line over. */
  lemma CutMoves(all: Split, taken: seq<seq<byte>>, output: seq<byte>)
    requires all == Split(taken + Cut(output).lines, Cut(output).rest)
    ensures var pos := IndexOf(output, NEWLINE);
            if pos == -1 then all == Split(taken, output)
            else all == Split(taken + [output[..pos + 1]] + Cut(output[pos + 1..]).lines, Cut(output[pos + 1..]).rest)
  {
    var pos := IndexOf(output, NEWLINE);
    if pos == -1 {
      assert taken + [] == taken;
    } else {
      LineMoves(all, taken, output[..pos + 1], Cut(output[pos + 1..]));
    }
  }

  lemma LineMoves(all: Split, taken: seq<seq<byte>>, line: seq<byte>, s: Split)
    requires all == Split(taken + ([line] + s.lines), s.rest)
    ensures all == Split(taken + [line] + s.lines, s.rest)
  {
    Associate(taken, [line], s.lines);
  }

  predicate IsLine(line: seq<byte>) {
    line != [] && line[|line| - 1] == NEWLINE && NEWLINE !in line[..|line| - 1]
  }

  /** The lines and the rest are the bytes, cut exactly behind each newline. */
  predicate IsSplit(bytes: seq<byte>, s: Split) {
    && Concat(s.lines) + s.rest == bytes
    && (forall i :: 0 <= i < |s.lines| ==> IsLine(s.lines[i]))
    && NEWLINE !in s.rest
  }

  lemma NoLines(rest: seq<byte>)
    requires NEWLINE !in rest
    ensures IsSplit(rest, Split([], rest))
  {
    assert Concat<byte>([]) + rest == rest;
  }

  lemma SplitCons(line: seq<byte>, bytes: seq<byte>, s: Split)
    requires IsLine(line) && IsSplit(bytes, s)
    ensures IsSplit(line + bytes, Split([line] + s.lines, s.rest))
  {
    ConcatCons(line, s.lines);
    assert line + (Concat(s.lines) + s.rest) == line + Concat(s.lines) + s.rest;
  }

  lemma FirstLineIsLine(output: seq<byte>, pos: nat)
    requires pos == IndexOf(output, NEWLINE)
    ensures IsLine(output[..pos + 1]) && output == output[..pos + 1] + output[pos + 1..]
  {
    assert output[..pos + 1][..pos] == output[..pos];
  }

  /** A line handed on ends in its only line feed, and none is left behind. */
  lemma LinesEndInLineFeed(output: seq<byte>, i: nat)
    requires i < |Cut(output).lines|
    ensures var line := Cut(output).lines[i]; line != [] && line[|line| - 1] == 10 && 10 !in line[..|line| - 1]
    ensures 10 !in Cut(output).rest
  {
    CutIsSplit(output);
  }

  lemma {:induction false} CutIsSplit(output: seq<byte>)
    ensures IsSplit(output, Cut(output))
    decreases |output|
  {
    var pos := IndexOf(output, NEWLINE);
    if pos == -1 {
      NoLines(output);
    } else {
      CutIsSplit(output[pos + 1..]);
      FirstLineIsLine(output, pos);
      SplitCons(output[..pos + 1], output[pos + 1..], Cut(output[pos + 1..]));
    }
  }

  lemma LineAtFront(line: seq<byte>, tail: seq<byte>)
    requires IsLine(line)
    ensures Cut(line + tail) == Split([line] + Cut(tail).lines, Cut(tail).rest)
  {
    assert (line + tail)[..|line| - 1] == line[..|line| - 1];
    FirstIndex(line + tail, NEWLINE, |line| - 1);
    assert (line + tail)[..|line|] == line && (line + tail)[|line|..] == tail;
  }

  /** There is only one way to cut bytes into lines, and Cut finds it. */
  lemma {:induction false} SplitIsUnique(bytes: seq<byte>, s: Split)
    requires IsSplit(bytes, s)
    ensures s == Cut(bytes)
    decreases |s.lines|
  {
    if s.lines == [] {
      assert bytes == s.rest;
    } else {
      var line, tail := s.lines[0], Concat(s.lines[1..]) + s.rest;
      assert bytes == line + tail;
      SplitIsUnique(tail, Split(s.lines[1..], s.rest));
      LineAtFront(line, tail);
    }
  }

  /** One slotReadInput per chunk, starting from what an earlier read left over. */
  function ReadAll(rest: seq<byte>, chunks: seq<seq<byte>>): Split {
    if chunks == [] then Split([], rest)
    else
      var before := ReadAll(rest, chunks[..|chunks| - 1]);
      var now := Cut(before.rest + chunks[|chunks| - 1]);
      Split(before.lines + now.lines, now.rest)
  }

  lemma JoinSplits(bytes: seq<byte>, chunk: seq<byte>, before: Split, now: Split)
    requires IsSplit(bytes, before) && IsSplit(before.rest + chunk, now)
    ensures IsSplit(bytes + chunk, Split(before.lines + now.lines, now.rest))
  {
    ConcatAppend(before.lines, now.lines);
    Associate(Concat(before.lines), Concat(now.lines), now.rest);
    Associate(Concat(before.lines), before.rest, chunk);
  }

  lemma {:induction false} ReadAllIsSplit(rest: seq<byte>, chunks: seq<seq<byte>>)
    requires NEWLINE !in rest
    ensures IsSplit(rest + Concat(chunks), ReadAll(rest, chunks))
  {
    if chunks == [] {
      NoLines(rest);
      assert rest + Concat(chunks) == rest;
    } else {
      var front, last := chunks[..|chunks| - 1], chunks[|chunks| - 1];
      ReadAllIsSplit(rest, front);
      ReadOneMore(rest + Concat(front), ReadAll(rest, front), last);
      BytesSnoc(rest, chunks);
    }
  }

  lemma BytesSnoc(rest: seq<byte>, chunks: seq<seq<byte>>)
    requires chunks != []
    ensures rest + Concat(chunks) == rest + Concat(chunks[..|chunks| - 1]) + chunks[|chunks| - 1]
  {
    var front, last := chunks[..|chunks| - 1], chunks[|chunks| - 1];
    ConcatSnoc(front, last);
    Associate(rest, Concat(front), last);
    assert front + [last] == chunks;
  }

  lemma ReadOneMore(bytes: seq<byte>, before: Split, chunk: seq<byte>)
    requires IsSplit(bytes, before)
    ensures var now := Cut(before.rest + chunk);
            IsSplit(bytes + chunk, Split(before.lines + now.lines, now.rest))
  {
    CutIsSplit(before.rest + chunk);
    JoinSplits(bytes, chunk, before, Cut(before.rest + chunk));
  }

  /** However the bytes were chunked, the same lines come out and the same bytes stay behind. */
  lemma ChunksDoNotMatter(rest: seq<byte>, chunks: seq<seq<byte>>)
    requires NEWLINE !in rest
    ensures ReadAll(rest, chunks) == Cut(rest + Concat(chunks))
    ensures IsSplit(rest + Concat(chunks), ReadAll(rest, chunks))
  {
    ReadAllIsSplit(rest, chunks);
    SplitIsUnique(rest + Concat(chunks), ReadAll(rest, chunks));
  }

  /** m_output is not cleared between runs: a partial last line of one run shows up in the next one's lines,
      and does not exactly when nothing was left over or the next run prints no line at all. */
  lemma LeftoverShows(rest: seq<byte>, bytes: seq<byte>)
    requires NEWLINE !in rest
    ensures Cut(rest + bytes).lines == Cut(bytes).lines <==> rest == [] || NEWLINE !in bytes
  {
    if rest == [] {
      assert rest + bytes == bytes;
    } else if NEWLINE in bytes {
      IndexInSecond(rest, bytes, NEWLINE);
      assert |Cut(rest + bytes).lines[0]| != |Cut(bytes).lines[0]|;
    } else {
      assert NEWLINE !in rest + bytes;
    }
  }
}
