/** The lines of the report that are shown to the user. */
module VisibleLines {
  import opened Sequences
  import opened BacktraceLines

  predicate Decoration(line: BacktraceLine) {
    line.kind.ThreadIndicator? || line.kind.ThreadStart? || line.kind.EmptyLine?
  }

  function Visible(lines: seq<BacktraceLine>, threadsCount: nat): seq<BacktraceLine> {
    if lines == [] then []
    else
      var front, last := Visible(lines[..|lines| - 1], threadsCount), lines[|lines| - 1];
      if threadsCount == 1 && Decoration(last) then front else front + [last]
  }

  function Texts(lines: seq<BacktraceLine>): string {
    if lines == [] then "" else Texts(lines[..|lines| - 1]) + lines[|lines| - 1].text
  }

  /** Every line is shown, in order, but for thread indicators, thread headers and empty lines of a lone thread. */
  lemma {:induction false} VisibleExactly(lines: seq<BacktraceLine>, threadsCount: nat) returns (ps: seq<nat>)
    ensures Increasing(ps) && forall i: nat :: i in ps <==>
              i < |lines| && (threadsCount == 1 ==> lines[i].kind !in {ThreadIndicator, ThreadStart, EmptyLine})
    ensures |Visible(lines, threadsCount)| == |ps|
    ensures forall k :: 0 <= k < |ps| ==> ps[k] < |lines| && Visible(lines, threadsCount)[k] == lines[ps[k]]
  {
    if lines == [] {
      ps := [];
    } else {
      var n := |lines| - 1;
      var front := VisibleExactly(lines[..n], threadsCount);
      ps := front;
      if threadsCount == 1 ==> lines[n].kind !in {ThreadIndicator, ThreadStart, EmptyLine} {
        IncreasingSnoc(front, n);
        ps := front + [n];
      }
    }
  }

  /** The text is that of the lines, one after the other. */
  lemma {:induction false} TextsExactly(lines: seq<BacktraceLine>)
    ensures Texts(lines) == Concat(Map((line: BacktraceLine) => line.text, lines))
  {
    var text := (line: BacktraceLine) => line.text;
    if lines == [] {
      assert Map(text, lines) == [];
    } else {
      var front, last := lines[..|lines| - 1], lines[|lines| - 1];
      TextsExactly(front);
      ConcatSnoc(Map(text, front), last.text);
      assert Map(text, lines) == Map(text, front) + [last.text];
    }
  }
}
