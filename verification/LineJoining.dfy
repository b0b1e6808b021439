/** BacktraceParserGdb::newLine puts lines that gdb wrapped back together. */
module LineJoining {
  import opened Sequences

  /** Lines handed to parseLine, and m_lineInputBuffer. */
  datatype Joined = Joined(lines: seq<string>, buffer: string)

  predicate IsContinuation(line: string) {
    line != "" && (line[0] == ' ' || line[0] == '\t')
  }

  /** One call of newLine: at most one complete line leaves the buffer. */
  function Push(buffer: string, line: string): Joined {
    if buffer == "" then Joined([], line)
    else if IsContinuation(line) then Joined([], buffer + line)
    else Joined([buffer], line)
  }

  function PushAll(buffer: string, lines: seq<string>): Joined
    decreases |lines|
  {
    if lines == [] then Joined([], buffer)
    else
      var j := Push(buffer, lines[0]);
      var rest := PushAll(j.buffer, lines[1..]);
      Joined(j.lines + rest.lines, rest.buffer)
  }

  /** How many lines at the front are continuations. */
  function Continuations(lines: seq<string>): (n: nat)
    ensures n <= |lines|
    ensures forall i :: 0 <= i < n ==> IsContinuation(lines[i])
    ensures n < |lines| ==> !IsContinuation(lines[n])
  {
    if lines != [] && IsContinuation(lines[0]) then 1 + Continuations(lines[1..]) else 0
  }

  /** The logical lines of a trace: each first line together with all the continuations behind it. */
  function Logical(lines: seq<string>): seq<string>
    decreases |lines|
  {
    if lines == [] then []
    else
      var n := Continuations(lines[1..]);
      [Concat(lines[..n + 1])] + Logical(lines[n + 1..])
  }

  predicate NoneEmpty(lines: seq<string>) {
    forall i :: 0 <= i < |lines| ==> lines[i] != ""
  }

  /** The logical line that begins with head takes all the continuations behind it. */
  lemma LogicalCons(head: string, tail: seq<string>)
    ensures var n := Continuations(tail);
            Logical([head] + tail) == [head + Concat(tail[..n])] + Logical(tail[n..])
  {
    var n := Continuations(tail);
    var all := [head] + tail;
    assert all[1..] == tail;
    assert all[..n + 1] == [head] + tail[..n];
    ConcatCons(head, tail[..n]);
    assert all[n + 1..] == tail[n..];
  }

  lemma OneMoreContinuation(next: string, rest: seq<string>)
    requires IsContinuation(next)
    ensures var all, n := [next] + rest, Continuations(rest);
            Continuations(all) == n + 1 && Concat(all[..n + 1]) == next + Concat(rest[..n]) && all[n + 1..] == rest[n..]
  {
    var all, n := [next] + rest, Continuations(rest);
    assert all[1..] == rest;
    assert all[..n + 1] == [next] + rest[..n];
    ConcatCons(next, rest[..n]);
  }

  lemma MergeContinuation(head: string, next: string, rest: seq<string>)
    requires IsContinuation(next)
    ensures Logical([head] + ([next] + rest)) == Logical([head + next] + rest)
  {
    LogicalCons(head, [next] + rest);
    LogicalCons(head + next, rest);
    OneMoreContinuation(next, rest);
    var text := Concat(rest[..Continuations(rest)]);
    assert head + (next + text) == head + next + text;
  }

  lemma SplitOffHead(head: string, lines: seq<string>)
    requires lines == [] || !IsContinuation(lines[0])
    ensures Logical([head] + lines) == [head] + Logical(lines)
  {
    var all := [head] + lines;
    assert all[1..] == lines;
    assert all[..1] == [head];
    ConcatSingle(head);
  }

  lemma {:induction false} BufferCollects(buffer: string, lines: seq<string>)
    requires buffer != "" && NoneEmpty(lines)
    ensures PushAll(buffer, lines + [""]) == Joined(Logical([buffer] + lines), "")
    decreases |lines|
  {
    if lines == [] {
      assert lines + [""] == [""];
      assert [buffer] + lines == [buffer];
      SplitOffHead(buffer, []);
      assert PushAll("", [""][1..]) == Joined([], "");
    } else {
      var first, rest := lines[0], lines[1..];
      assert lines == [first] + rest;
      assert (lines + [""])[0] == first && (lines + [""])[1..] == rest + [""];
      if IsContinuation(first) {
        BufferCollects(buffer + first, rest);
        MergeContinuation(buffer, first, rest);
      } else {
        BufferCollects(first, rest);
        SplitOffHead(buffer, lines);
      }
    }
  }

  /** With the closing empty line, parseLine has got exactly the logical lines and the buffer is empty. */
  lemma JoiningIsLogical(lines: seq<string>)
    requires NoneEmpty(lines)
    ensures PushAll("", lines + [""]) == Joined(Logical(lines), "")
  {
    if lines == [] {
      assert lines + [""] == [""];
      assert PushAll("", [""][1..]) == Joined([], "");
    } else {
      var first, rest := lines[0], lines[1..];
      assert lines == [first] + rest;
      assert (lines + [""])[0] == first && (lines + [""])[1..] == rest + [""];
      BufferCollects(first, rest);
    }
  }

  /** Joining changes line boundaries only: no character is lost, added or moved. */
  lemma {:induction false} LogicalKeepsText(lines: seq<string>)
    ensures Concat(Logical(lines)) == Concat(lines)
    decreases |lines|
  {
    if lines != [] {
      var n := Continuations(lines[1..]);
      LogicalKeepsText(lines[n + 1..]);
      ConcatAppend(lines[..n + 1], lines[n + 1..]);
      assert lines == lines[..n + 1] + lines[n + 1..];
      assert ([Concat(lines[..n + 1])] + Logical(lines[n + 1..]))[1..] == Logical(lines[n + 1..]);
    }
  }

  lemma {:induction false} PushAllAppend(buffer: string, xs: seq<string>, ys: seq<string>)
    ensures var j := PushAll(buffer, xs);
            var k := PushAll(j.buffer, ys);
            PushAll(buffer, xs + ys) == Joined(j.lines + k.lines, k.buffer)
    decreases |xs|
  {
    if xs == [] {
      assert xs + ys == ys;
      assert [] + PushAll(buffer, ys).lines == PushAll(buffer, ys).lines;
    } else {
      assert (xs + ys)[0] == xs[0] && (xs + ys)[1..] == xs[1..] + ys;
      var p := Push(buffer, xs[0]);
      PushAllAppend(p.buffer, xs[1..], ys);
      var j := PushAll(p.buffer, xs[1..]);
      var k := PushAll(j.buffer, ys);
      assert p.lines + (j.lines + k.lines) == p.lines + j.lines + k.lines;
    }
  }
}
