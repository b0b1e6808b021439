/** What BacktraceParserGdb's state machine computes, read off its input one thread at a time. */
module GdbThreads {
  import opened BacktraceLines
  import opened GdbParserModel

  /** The input cut in front of every thread header. */
  function Threads(lines: seq<BacktraceLine>): (ts: seq<seq<BacktraceLine>>)
    ensures |ts| >= 1
  {
    if lines == [] then [[]]
    else
      var last := lines[|lines| - 1];
      var ts := Threads(lines[..|lines| - 1]);
      if last.kind.ThreadStart? then ts + [[last]]
      else ts[..|ts| - 1] + [ts[|ts| - 1] + [last]]
  }

  /** Lines of one thread without gdb's noise and without a second frame 0; `seen`: frame 0 was met before. */
  function Kept(lines: seq<BacktraceLine>, seen: bool): seq<BacktraceLine> {
    if lines == [] then []
    else
      var x := lines[0];
      var rest := Kept(lines[1..], seen || IsFrameZero(x));
      if x.kind.Crap? || x.kind.Info? || (IsFrameZero(x) && seen) then rest else [x] + rest
  }

  /** Position of the first signal handler line, or the length. */
  function FirstHandler(lines: seq<BacktraceLine>): (i: nat)
    ensures i <= |lines|
    ensures forall j :: 0 <= j < i ==> !IsHandler(lines[j])
    ensures i < |lines| ==> IsHandler(lines[i])
  {
    if lines == [] then 0 else if IsHandler(lines[0]) then 0 else 1 + FirstHandler(lines[1..])
  }

  function Header(thread: seq<BacktraceLine>): (r: seq<BacktraceLine>)
    ensures r <= thread
  {
    if thread != [] && thread[0].kind.ThreadStart? then thread[..1] else []
  }

  /** The visible lines of a thread below its header, before the handler is dealt with. */
  function Body(thread: seq<BacktraceLine>): seq<BacktraceLine> {
    Kept(thread[|Header(thread)|..], false)
  }

  /** What the report shows of one thread: everything down to the first handler becomes one marker. */
  function Shown(thread: seq<BacktraceLine>): seq<BacktraceLine> {
    var body := Body(thread);
    var k := FirstHandler(body);
    Header(thread) + (if k == |body| then body else [HandlerMarker()] + body[k + 1..])
  }

  function Frames(lines: seq<BacktraceLine>): seq<BacktraceLine> {
    if lines == [] then []
    else
      var rest := Frames(lines[..|lines| - 1]);
      var x := lines[|lines| - 1];
      if x.kind.StackFrame? then rest + [x] else rest
  }

  /** The frames of one thread that count for the rating: those below its first handler. */
  function Rated(thread: seq<BacktraceLine>): seq<BacktraceLine> {
    var body := Body(thread);
    var k := FirstHandler(body);
    if k == |body| then [] else Frames(body[k + 1..])
  }

  function ShownAll(ts: seq<seq<BacktraceLine>>): seq<BacktraceLine> {
    if ts == [] then [] else ShownAll(ts[..|ts| - 1]) + Shown(ts[|ts| - 1])
  }

  function RatedAll(ts: seq<seq<BacktraceLine>>): seq<BacktraceLine> {
    if ts == [] then [] else RatedAll(ts[..|ts| - 1]) + Rated(ts[|ts| - 1])
  }

  predicate HasFrameZero(lines: seq<BacktraceLine>) {
    exists i :: 0 <= i < |lines| && IsFrameZero(lines[i])
  }

  function InfoTexts(lines: seq<BacktraceLine>): seq<string> {
    if lines == [] then []
    else
      var rest := InfoTexts(lines[..|lines| - 1]);
      var x := lines[|lines| - 1];
      if x.kind.Info? then rest + [InfoText(x.text)] else rest
  }

  lemma {:induction false} KeptSnoc(lines: seq<BacktraceLine>, x: BacktraceLine, seen: bool)
    ensures Kept(lines + [x], seen) == Kept(lines, seen) + Kept([x], seen || HasFrameZero(lines))
  {
    if lines == [] {
      assert lines + [x] == [x];
    } else {
      KeptSnoc(lines[1..], x, seen || IsFrameZero(lines[0]));
      assert (lines + [x])[1..] == lines[1..] + [x];
      assert HasFrameZero(lines) <==> IsFrameZero(lines[0]) || HasFrameZero(lines[1..]) by {
        if HasFrameZero(lines) && !IsFrameZero(lines[0]) {
          var i :| 0 <= i < |lines| && IsFrameZero(lines[i]);
          assert lines[1..][i - 1] == lines[i];
        }
        if HasFrameZero(lines[1..]) {
          var i :| 0 <= i < |lines| - 1 && IsFrameZero(lines[1..][i]);
          assert lines[i + 1] == lines[1..][i];
        }
      }
    }
  }

  lemma HasFrameZeroSnoc(lines: seq<BacktraceLine>, x: BacktraceLine)
    ensures HasFrameZero(lines + [x]) <==> HasFrameZero(lines) || IsFrameZero(x)
  {
    if HasFrameZero(lines) {
      var i :| 0 <= i < |lines| && IsFrameZero(lines[i]);
      assert (lines + [x])[i] == lines[i];
    }
    if IsFrameZero(x) {
      assert (lines + [x])[|lines|] == x;
    }
  }

  /** Position of the first handler when one more line arrives. */
  lemma {:induction false} FirstHandlerSnoc(body: seq<BacktraceLine>, x: BacktraceLine)
    ensures FirstHandler(body + [x])
         == if FirstHandler(body) < |body| then FirstHandler(body)
            else if IsHandler(x) then |body| else |body| + 1
  {
    if body == [] {
      assert body + [x] == [x];
    } else {
      assert (body + [x])[1..] == body[1..] + [x];
      FirstHandlerSnoc(body[1..], x);
    }
  }

  /** How one more line changes what is shown of a thread. */
  lemma ThreadSnoc(thread: seq<BacktraceLine>, x: BacktraceLine)
    requires !x.kind.ThreadStart?
    ensures Header(thread + [x]) == Header(thread)
    ensures Body(thread + [x])
         == Body(thread) + Kept([x], HasFrameZero(thread))
  {
    var h := |Header(thread)|;
    assert (thread + [x])[h..] == thread[h..] + [x];
    KeptSnoc(thread[h..], x, false);
    assert HasFrameZero(thread) <==> HasFrameZero(thread[h..]) by {
      if HasFrameZero(thread) {
        var i :| 0 <= i < |thread| && IsFrameZero(thread[i]);
        assert thread[h..][i - h] == thread[i];
      }
      if HasFrameZero(thread[h..]) {
        var i :| 0 <= i < |thread| - h && IsFrameZero(thread[h..][i]);
        assert thread[i + h] == thread[h..][i];
      }
    }
  }

  /** A line of a thread is left out exactly for being noise, or a frame 0 behind an earlier one. */
  lemma KeptExactly(lines: seq<BacktraceLine>, x: BacktraceLine)
    ensures Kept(lines + [x], false)
         == if || x.kind in {Crap, Info}
               || (x.kind == StackFrame && x.frameNumber == 0
                   && exists i :: 0 <= i < |lines| && lines[i].kind == StackFrame && lines[i].frameNumber == 0)
            then Kept(lines, false) else Kept(lines, false) + [x]
  {
    KeptSnoc(lines, x, false);
    assert [x][1..] == [];
    assert [x] + [] == [x];
  }

  lemma DroppedLine(thread: seq<BacktraceLine>, x: BacktraceLine)
    requires !x.kind.ThreadStart? && Dropped(x, HasFrameZero(thread))
    ensures Body(thread + [x]) == Body(thread)
    ensures Shown(thread + [x]) == Shown(thread) && Rated(thread + [x]) == Rated(thread)
  {
    ThreadSnoc(thread, x);
    assert Kept([x], HasFrameZero(thread)) == [];
  }

  lemma KeptLine(thread: seq<BacktraceLine>, x: BacktraceLine)
    requires !x.kind.ThreadStart? && !Dropped(x, HasFrameZero(thread))
    ensures Body(thread + [x]) == Body(thread) + [x]
    ensures FirstHandler(Body(thread + [x]))
         == if FirstHandler(Body(thread)) < |Body(thread)| then FirstHandler(Body(thread))
            else if IsHandler(x) then |Body(thread)| else |Body(thread)| + 1
  {
    ThreadSnoc(thread, x);
    assert Kept([x], HasFrameZero(thread)) == [x] + Kept([], true || HasFrameZero(thread));
    FirstHandlerSnoc(Body(thread), x);
  }

  lemma FramesSnoc(lines: seq<BacktraceLine>, x: BacktraceLine)
    ensures Frames(lines + [x]) == Frames(lines) + (if x.kind.StackFrame? then [x] else [])
  {
    assert (lines + [x])[..|lines|] == lines;
  }

  /** A kept line below the first handler is shown, and rated when it is a frame. */
  lemma LineBelowHandler(thread: seq<BacktraceLine>, x: BacktraceLine)
    requires !x.kind.ThreadStart? && !Dropped(x, HasFrameZero(thread))
    requires FirstHandler(Body(thread)) < |Body(thread)|
    ensures Shown(thread + [x]) == Shown(thread) + [x]
    ensures Rated(thread + [x]) == Rated(thread) + (if x.kind.StackFrame? then [x] else [])
  {
    KeptLine(thread, x);
    ThreadSnoc(thread, x);
    var body, k := Body(thread), FirstHandler(Body(thread));
    assert (body + [x])[k + 1..] == body[k + 1..] + [x];
    FramesSnoc(body[k + 1..], x);
  }

  /** The first handler replaces everything below the thread header. */
  lemma FirstHandlerLine(thread: seq<BacktraceLine>, x: BacktraceLine)
    requires IsHandler(x)
    requires FirstHandler(Body(thread)) == |Body(thread)|
    ensures Shown(thread + [x]) == Header(thread) + [HandlerMarker()]
    ensures Rated(thread + [x]) == Rated(thread) == []
  {
    KeptLine(thread, x);
    ThreadSnoc(thread, x);
    assert (Body(thread) + [x])[|Body(thread)| + 1..] == [];
  }

  lemma LineAboveHandler(thread: seq<BacktraceLine>, x: BacktraceLine)
    requires !x.kind.ThreadStart? && !Dropped(x, HasFrameZero(thread)) && !IsHandler(x)
    requires FirstHandler(Body(thread)) == |Body(thread)|
    ensures Shown(thread + [x]) == Shown(thread) + [x]
    ensures Rated(thread + [x]) == Rated(thread) == []
  {
    KeptLine(thread, x);
    ThreadSnoc(thread, x);
  }

  /** What matters about an unfinished thread for the lines to come. */
  datatype ThreadView = ThreadView(
    header: seq<BacktraceLine>,
    shown: seq<BacktraceLine>,
    rated: seq<BacktraceLine>,
    belowHandler: bool,
    hasFrameZero: bool)

  function ViewOf(thread: seq<BacktraceLine>): ThreadView {
    ThreadView(Header(thread), Shown(thread), Rated(thread),
               FirstHandler(Body(thread)) < |Body(thread)|, HasFrameZero(thread))
  }

  /** One more line of the same thread. */
  function Extended(v: ThreadView, x: BacktraceLine): ThreadView {
    if Dropped(x, v.hasFrameZero) then v
    else if IsHandler(x) && !v.belowHandler then v.(shown := v.header + [HandlerMarker()], belowHandler := true)
    else
      v.(shown := v.shown + [x],
         rated := v.rated + (if x.kind.StackFrame? && v.belowHandler then [x] else []),
         hasFrameZero := v.hasFrameZero || IsFrameZero(x))
  }

  lemma ViewAfterKeptLine(thread: seq<BacktraceLine>, x: BacktraceLine)
    requires !x.kind.ThreadStart? && !Dropped(x, HasFrameZero(thread))
    ensures ViewOf(thread + [x]).belowHandler == (ViewOf(thread).belowHandler || IsHandler(x))
  {
    KeptLine(thread, x);
  }

  lemma ViewSnoc(thread: seq<BacktraceLine>, x: BacktraceLine)
    requires !x.kind.ThreadStart?
    ensures ViewOf(thread + [x]) == Extended(ViewOf(thread), x)
  {
    ThreadSnoc(thread, x);
    HasFrameZeroSnoc(thread, x);
    if Dropped(x, HasFrameZero(thread)) {
      DroppedLine(thread, x);
    } else {
      ViewAfterKeptLine(thread, x);
      if FirstHandler(Body(thread)) < |Body(thread)| {
        LineBelowHandler(thread, x);
      } else if IsHandler(x) {
        FirstHandlerLine(thread, x);
      } else {
        LineAboveHandler(thread, x);
      }
    }
  }

  /** State s is what parseLine leaves behind after `threads` finished threads with these shown and rated lines, and an
      unfinished thread viewed as v. */
  predicate Matches(shown: seq<BacktraceLine>, rated: seq<BacktraceLine>, threads: nat, v: ThreadView, s: ParserState) {
    && v.header <= v.shown
    && s.linesList == shown + v.shown
    && s.linesToRate == rated + v.rated
    && s.possibleKCrashStart == |shown| + |v.header|
    && s.threadsCount == threads
    && s.isBelowSignalHandler == v.belowHandler
    && s.frameZeroAppeared == v.hasFrameZero
  }

  lemma MatchesAppended(shown: seq<BacktraceLine>, rated: seq<BacktraceLine>, threads: nat, v: ThreadView,
                        s: ParserState, x: BacktraceLine)
    requires s.Valid() && !x.kind.ThreadStart? && Matches(shown, rated, threads, v, s)
    requires !Dropped(x, v.hasFrameZero) && (IsHandler(x) ==> v.belowHandler)
    ensures Matches(shown, rated, threads, Extended(v, x), Accept(s, x))
  {
    AcceptAppends(s, x);
    assert shown + v.shown + [x] == shown + (v.shown + [x]);
    var more := if x.kind.StackFrame? && v.belowHandler then [x] else [];
    assert rated + v.rated + more == rated + (v.rated + more);
  }

  lemma MatchesHandler(shown: seq<BacktraceLine>, rated: seq<BacktraceLine>, threads: nat, v: ThreadView,
                       s: ParserState, x: BacktraceLine)
    requires s.Valid() && Matches(shown, rated, threads, v, s)
    requires IsHandler(x) && !v.belowHandler
    ensures Matches(shown, rated, threads, Extended(v, x), Accept(s, x))
  {
    assert (shown + v.shown)[..|shown| + |v.header|] == shown + v.header;
    assert shown + v.header + [HandlerMarker()] == shown + (v.header + [HandlerMarker()]);
  }

  /** parseLine follows the view of the unfinished thread. */
  lemma MatchesStep(shown: seq<BacktraceLine>, rated: seq<BacktraceLine>, threads: nat, v: ThreadView, s: ParserState,
                    x: BacktraceLine)
    requires s.Valid() && !x.kind.ThreadStart? && Matches(shown, rated, threads, v, s)
    ensures Matches(shown, rated, threads, Extended(v, x), Accept(s, x))
  {
    if !Dropped(x, v.hasFrameZero) {
      if IsHandler(x) && !v.belowHandler {
        MatchesHandler(shown, rated, threads, v, s, x);
      } else {
        MatchesAppended(shown, rated, threads, v, s, x);
      }
    }
  }

  /** State s is what parseLine leaves behind after the threads ts, the last of them unfinished. */
  predicate Describes(ts: seq<seq<BacktraceLine>>, s: ParserState)
    requires |ts| >= 1
  {
    var done := ts[..|ts| - 1];
    Matches(ShownAll(done), RatedAll(done), |done|, ViewOf(ts[|ts| - 1]), s)
  }

  lemma ViewOfHeader(x: BacktraceLine)
    requires x.kind.ThreadStart?
    ensures ViewOf([x]) == ThreadView([x], [x], [], false, false)
  {
    assert Header([x]) == [x];
    assert [x][1..] == [];
    assert Body([x]) == [];
  }

  lemma MatchesNewThread(shown: seq<BacktraceLine>, rated: seq<BacktraceLine>, threads: nat, v: ThreadView,
                         s: ParserState, x: BacktraceLine)
    requires s.Valid() && x.kind.ThreadStart? && Matches(shown, rated, threads, v, s)
    ensures Matches(shown + v.shown, rated + v.rated, threads + 1, ThreadView([x], [x], [], false, false), Accept(s, x))
  {
    assert rated + v.rated + [] == rated + v.rated;
  }

  lemma NewThreadStep(ts: seq<seq<BacktraceLine>>, s: ParserState, x: BacktraceLine)
    requires |ts| >= 1 && x.kind.ThreadStart? && s.Valid() && Describes(ts, s)
    ensures Describes(ts + [[x]], Accept(s, x))
  {
    var done, last := ts[..|ts| - 1], ts[|ts| - 1];
    assert (ts + [[x]])[..|ts|] == ts;
    ViewOfHeader(x);
    MatchesNewThread(ShownAll(done), RatedAll(done), |done|, ViewOf(last), s, x);
  }

  lemma SameThreadStep(ts: seq<seq<BacktraceLine>>, s: ParserState, x: BacktraceLine)
    requires |ts| >= 1 && !x.kind.ThreadStart? && s.Valid() && Describes(ts, s)
    ensures Describes(ts[..|ts| - 1] + [ts[|ts| - 1] + [x]], Accept(s, x))
  {
    var done, last := ts[..|ts| - 1], ts[|ts| - 1];
    assert (done + [last + [x]])[..|done|] == done;
    ViewSnoc(last, x);
    MatchesStep(ShownAll(done), RatedAll(done), |done|, ViewOf(last), s, x);
  }

  lemma {:induction false} ThreadsDescribe(lines: seq<BacktraceLine>)
    ensures Describes(Threads(lines), AcceptAll(FRESH, lines))
  {
    if lines == [] {
      assert Threads(lines) == [[]];
      assert Body([]) == [];
      assert Shown([]) == [];
    } else {
      var front, x := lines[..|lines| - 1], lines[|lines| - 1];
      ThreadsDescribe(front);
      if x.kind.ThreadStart? {
        NewThreadStep(Threads(front), AcceptAll(FRESH, front), x);
      } else {
        SameThreadStep(Threads(front), AcceptAll(FRESH, front), x);
      }
    }
  }

  /** Main accounting result: the state machine's lists are the shown, rated and information lines of the threads. */
  lemma {:induction false} ReportIsThreads(lines: seq<BacktraceLine>)
    ensures AcceptAll(FRESH, lines).linesList == ShownAll(Threads(lines))
    ensures AcceptAll(FRESH, lines).linesToRate == RatedAll(Threads(lines))
    ensures AcceptAll(FRESH, lines).threadsCount == |Threads(lines)| - 1
  {
    ThreadsDescribe(lines);
  }

  lemma {:induction false} InformationLines(lines: seq<BacktraceLine>)
    ensures AcceptAll(FRESH, lines).infoLines == InfoTexts(lines)
  {
    if lines != [] {
      InformationLines(lines[..|lines| - 1]);
    }
  }
}
