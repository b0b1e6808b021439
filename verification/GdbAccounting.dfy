/** Frame, thread and text accounting over whole inputs of BacktraceParserGdb. */
module GdbAccounting {
  import opened Sequences
  import opened BacktraceLines
  import opened GdbParserModel
  import opened GdbThreads

  /** How many lines satisfy p. */
  function Count(p: BacktraceLine -> bool, lines: seq<BacktraceLine>): nat {
    if lines == [] then 0 else (if p(lines[0]) then 1 else 0) + Count(p, lines[1..])
  }

  lemma {:induction false} CountAppend(p: BacktraceLine -> bool, xs: seq<BacktraceLine>, ys: seq<BacktraceLine>)
    ensures Count(p, xs + ys) == Count(p, xs) + Count(p, ys)
  {
    if xs == [] {
      assert xs + ys == ys;
    } else {
      assert (xs + ys)[1..] == xs[1..] + ys;
      CountAppend(p, xs[1..], ys);
    }
  }

  lemma {:induction false} KeptFrameZeros(lines: seq<BacktraceLine>, seen: bool)
    ensures Count(IsFrameZero, Kept(lines, seen)) <= (if seen then 0 else 1)
  {
    if lines != [] {
      var x, rest := lines[0], Kept(lines[1..], seen || IsFrameZero(lines[0]));
      KeptFrameZeros(lines[1..], seen || IsFrameZero(x));
      assert ([x] + rest)[1..] == rest;
    }
  }

  /** Replacing KCrash's frames by the marker only removes lines. */
  lemma CountShown(p: BacktraceLine -> bool, thread: seq<BacktraceLine>)
    requires !p(HandlerMarker())
    ensures Count(p, Header(thread)) <= Count(p, Shown(thread)) <= Count(p, Header(thread)) + Count(p, Body(thread))
  {
    var body := Body(thread);
    var k := FirstHandler(body);
    if k == |body| {
      CountAppend(p, Header(thread), body);
    } else {
      CountAppend(p, Header(thread), [HandlerMarker()] + body[k + 1..]);
      CountAppend(p, [HandlerMarker()], body[k + 1..]);
      CountAppend(p, body[..k + 1], body[k + 1..]);
      assert body == body[..k + 1] + body[k + 1..];
    }
  }

  /** gdb prints frame 0 of a thread twice; the report shows it at most once. */
  lemma ShownFrameZeros(thread: seq<BacktraceLine>)
    ensures Count(IsFrameZero, Shown(thread)) <= 1
  {
    KeptFrameZeros(thread[|Header(thread)|..], false);
    CountShown(IsFrameZero, thread);
  }

  predicate NoHeaderBelowTop(thread: seq<BacktraceLine>) {
    forall j :: 0 < j < |thread| ==> !IsThreadStart(thread[j])
  }

  predicate BeginsWithHeader(thread: seq<BacktraceLine>) {
    thread != [] && IsThreadStart(thread[0])
  }

  /** The part before the first header, then threads with one header each. */
  predicate OneHeaderEach(ts: seq<seq<BacktraceLine>>) {
    && (forall i :: 0 <= i < |ts| ==> NoHeaderBelowTop(ts[i]))
    && (forall i :: 0 <= i < |ts| ==> (BeginsWithHeader(ts[i]) <==> i != 0))
  }

  lemma {:induction false} ThreadsHaveOneHeader(lines: seq<BacktraceLine>)
    ensures OneHeaderEach(Threads(lines))
  {
    if lines != [] {
      ThreadsHaveOneHeader(lines[..|lines| - 1]);
      var ts := Threads(lines[..|lines| - 1]);
      if |ts| == 1 && ts[0] == [] {
        assert !BeginsWithHeader([]);
      }
    }
  }

  /** Cutting into threads loses and reorders nothing. */
  lemma {:induction false} ThreadsPartition(lines: seq<BacktraceLine>)
    ensures Concat(Threads(lines)) == lines
  {
    if lines == [] {
      ConcatSingle<BacktraceLine>([]);
    } else {
      var front, x := lines[..|lines| - 1], lines[|lines| - 1];
      ThreadsPartition(front);
      var ts := Threads(front);
      var done, last := ts[..|ts| - 1], ts[|ts| - 1];
      assert ts == done + [last];
      assert front + [x] == lines;
      if IsThreadStart(x) {
        ConcatAppend(ts, [[x]]);
        ConcatSingle([x]);
      } else {
        ConcatAppend(done, [last]);
        ConcatAppend(done, [last + [x]]);
        ConcatSingle(last);
        ConcatSingle(last + [x]);
        assert Concat(done) + (last + [x]) == Concat(done) + last + [x];
      }
    }
  }

  lemma {:induction false} KeptHasNoHeader(lines: seq<BacktraceLine>, seen: bool)
    requires forall i :: 0 <= i < |lines| ==> !IsThreadStart(lines[i])
    ensures Count(IsThreadStart, Kept(lines, seen)) == 0
  {
    if lines != [] {
      var x := lines[0];
      var rest := Kept(lines[1..], seen || IsFrameZero(x));
      KeptHasNoHeader(lines[1..], seen || IsFrameZero(x));
      assert ([x] + rest)[1..] == rest;
    }
  }

  lemma ShownThreadStarts(thread: seq<BacktraceLine>)
    requires NoHeaderBelowTop(thread)
    ensures Count(IsThreadStart, Shown(thread)) == if BeginsWithHeader(thread) then 1 else 0
  {
    KeptHasNoHeader(thread[|Header(thread)|..], false);
    CountShown(IsThreadStart, thread);
  }

  lemma {:induction false} ShownAllThreadStarts(ts: seq<seq<BacktraceLine>>)
    requires OneHeaderEach(ts)
    ensures Count(IsThreadStart, ShownAll(ts)) == if |ts| == 0 then 0 else |ts| - 1
  {
    if ts != [] {
      ShownAllThreadStarts(ts[..|ts| - 1]);
      ShownThreadStarts(ts[|ts| - 1]);
      CountAppend(IsThreadStart, ShownAll(ts[..|ts| - 1]), Shown(ts[|ts| - 1]));
    }
  }

  /** No thread header is ever erased: m_threadsCount is the number of headers in m_linesList. */
  lemma ThreadsCountIsHeaders(lines: seq<BacktraceLine>)
    ensures AcceptAll(FRESH, lines).threadsCount == Count(IsThreadStart, AcceptAll(FRESH, lines).linesList)
  {
    ReportIsThreads(lines);
    ThreadsHaveOneHeader(lines);
    ShownAllThreadStarts(Threads(lines));
  }
}
