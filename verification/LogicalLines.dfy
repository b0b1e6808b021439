/** How many logical lines gdb's lines make, and what they begin with. */
module LogicalLines {
  import opened Sequences
  import opened LineJoining

  /** gdb indents the second and further lines of a wrapped one, by a blank or a tab. */
  predicate Unindented(line: string) {
    line == "" || line[0] !in {' ', '\t'}
  }

  function UnindentedCount(lines: seq<string>): nat {
    if lines == [] then 0 else (if Unindented(lines[0]) then 1 else 0) + UnindentedCount(lines[1..])
  }

  lemma {:induction false} ContinuationsAreIndented(lines: seq<string>)
    ensures UnindentedCount(lines) == UnindentedCount(lines[Continuations(lines)..])
    ensures Continuations(lines) < |lines| ==> Unindented(lines[Continuations(lines)])
  {
    if lines != [] && IsContinuation(lines[0]) {
      ContinuationsAreIndented(lines[1..]);
      assert lines[1..][Continuations(lines[1..])..] == lines[Continuations(lines)..];
    } else {
      assert lines[0..] == lines;
    }
  }

  lemma ConcatBegins(line: string, rest: seq<string>)
    requires line != ""
    ensures var all := Concat([line] + rest); all != "" && all[0] == line[0]
  {
    ConcatCons(line, rest);
  }

  /** There are exactly as many logical lines as lines that gdb has not indented, the very first line counting in any
      case; and only the first logical line can begin indented. */
  lemma {:induction false} LogicalExactly(lines: seq<string>)
    requires NoneEmpty(lines)
    ensures |Logical(lines)| == if lines == [] then 0 else 1 + UnindentedCount(lines[1..])
    ensures forall k :: 0 < k < |Logical(lines)| ==> Logical(lines)[k] != "" && Unindented(Logical(lines)[k])
    ensures lines != [] ==> Logical(lines)[0] != "" && Logical(lines)[0][0] == lines[0][0]
    decreases |lines|
  {
    if lines != [] {
      var n := Continuations(lines[1..]);
      ContinuationsAreIndented(lines[1..]);
      assert lines[1..][n..] == lines[n + 1..];
      LogicalExactly(lines[n + 1..]);
      assert lines[..n + 1] == [lines[0]] + lines[1..n + 1];
      ConcatBegins(lines[0], lines[1..n + 1]);
      if n + 1 < |lines| {
        assert lines[1..][n] == lines[n + 1];
        assert lines[n + 1..][1..] == lines[n + 2..];
      }
    }
  }
}
