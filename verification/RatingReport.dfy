/** Everything calculateRatingData derives from m_linesToRate, and the cache in front of it. */
module RatingReport {
  import opened Sequences
  import opened Rating
  import opened RatingWindow
  import opened SimplifiedBacktrace

  /** A line of m_linesToRate as calculateRatingData sees it; `library` is trimmed. */
  datatype RatedLine = RatedLine(frame: Frame, mentionsCompositor: bool, library: string, item: Item)

  function Frames(lines: seq<RatedLine>): (fs: seq<Frame>)
    ensures |fs| == |lines| && forall i :: 0 <= i < |lines| ==> fs[i] == lines[i].frame
  {
    seq(|lines|, i requires 0 <= i < |lines| => lines[i].frame)
  }

  function Items(lines: seq<RatedLine>): (r: seq<Item>)
    ensures |r| == |lines| && forall i :: 0 <= i < |lines| ==> r[i] == lines[i].item
  {
    seq(|lines|, i requires 0 <= i < |lines| => lines[i].item)
  }

  /** MissingFunction or MissingSourceFile, and not ignored. */
  predicate MissesSymbols(f: Frame) {
    !f.ignored && (f.rating == 1 || f.rating == 3)
  }

  /** Libraries to report, from the lowest frame up to frame `from`. */
  function MissingLibraries(lines: seq<RatedLine>, from: nat): seq<string>
    requires from <= |lines|
    decreases |lines| - from
  {
    if from == |lines| then []
    else MissingLibraries(lines, from + 1) + (if MissesSymbols(lines[from].frame) then [lines[from].library] else [])
  }

  /** QStringList::removeDuplicates keeps the first of equal entries. */
  function Deduplicated(xs: seq<string>): (r: seq<string>)
    ensures forall x :: x in r <==> x in xs
    ensures forall i, j :: 0 <= i < j < |r| ==> r[i] != r[j]
  {
    if xs == [] then []
    else
      var front := Deduplicated(xs[..|xs| - 1]);
      var last := xs[|xs| - 1];
      assert xs == xs[..|xs| - 1] + [last];
      if last in front then front else front + [last]
  }

  /** The topmost line the loop looks at: the stack top it leaves at, or the very first line. */
  function ExaminedFrom(fs: seq<Frame>): (a: nat)
    ensures a <= |fs|
  {
    var a := WindowStart(fs);
    if a == 0 then 0 else a - 1
  }

  predicate SawCompositorBreak(lines: seq<RatedLine>, from: nat)
    requires from <= |lines|
    decreases |lines| - from
  {
    from < |lines| && (lines[from].mentionsCompositor || SawCompositorBreak(lines, from + 1))
  }

  // ---- The cached results ----

  datatype RatingData = RatingData(
    simplifiedBacktrace: string,
    librariesWithMissingDebugSymbols: seq<string>,
    usefulness: Usefulness,
    compositorCrashed: bool)

  const NO_DATA := RatingData("", [], InvalidUsefulness, false)

  /** calculateRatingData: both lists are added to, the verdict is replaced. */
  function Calculated(lines: seq<RatedLine>, d: RatingData): RatingData {
    var fs := Frames(lines);
    RatingData(
      Listing(d.simplifiedBacktrace, Items(lines), 0, 0, false),
      Deduplicated(d.librariesWithMissingDebugSymbols + MissingLibraries(lines, RatedFrom(fs))),
      MachineVerdict(fs),
      d.compositorCrashed || SawCompositorBreak(lines, ExaminedFrom(fs)))
  }

  /** What each of the four accessors does before it answers. */
  function Refreshed(lines: seq<RatedLine>, d: RatingData): RatingData {
    if d.usefulness == InvalidUsefulness then Calculated(lines, d) else d
  }

  /** n accessor calls in a row. */
  function Accessed(lines: seq<RatedLine>, d: RatingData, n: nat): RatingData {
    if n == 0 then d else Refreshed(lines, Accessed(lines, d, n - 1))
  }

  /** Any number of accessor calls answers from one calculation over the lines to rate. */
  lemma {:induction false} OneCalculation(lines: seq<RatedLine>, d: RatingData, n: nat)
    requires d.usefulness == InvalidUsefulness && n > 0
    ensures Accessed(lines, d, n) == Calculated(lines, d)
    ensures Accessed(lines, d, n).usefulness != InvalidUsefulness
  {
    if n > 1 {
      OneCalculation(lines, d, n - 1);
    } else {
      assert Accessed(lines, d, 0) == d;
    }
  }

  /** The frames from `from` on that miss symbols, the lowest first, and their libraries. */
  ghost predicate Sources(lines: seq<RatedLine>, from: nat, ps: seq<nat>)
    requires from <= |lines|
  {
    && Decreasing(ps) && (forall i: nat :: i in ps <==> from <= i < |lines| && MissesSymbols(lines[i].frame))
    && |MissingLibraries(lines, from)| == |ps|
    && forall k :: 0 <= k < |ps| ==> ps[k] < |lines| && MissingLibraries(lines, from)[k] == lines[ps[k]].library
  }

  lemma OneMoreSource(lines: seq<RatedLine>, from: nat, ps: seq<nat>)
    requires from < |lines| && Sources(lines, from + 1, ps)
    ensures Sources(lines, from, if MissesSymbols(lines[from].frame) then ps + [from] else ps)
  {
    if MissesSymbols(lines[from].frame) {
      assert forall k :: 0 <= k < |ps| ==> ps[k] in ps;
      DecreasingSnoc(ps, from);
    } else {
      assert MissingLibraries(lines, from) == MissingLibraries(lines, from + 1);
    }
  }

  /** Where the libraries come from. */
  lemma {:induction false} MissingLibrariesAre(lines: seq<RatedLine>, from: nat) returns (ps: seq<nat>)
    requires from <= |lines|
    ensures Sources(lines, from, ps)
    decreases |lines| - from
  {
    if from == |lines| {
      ps := [];
    } else {
      ps := MissingLibrariesAre(lines, from + 1);
      OneMoreSource(lines, from, ps);
      ps := if MissesSymbols(lines[from].frame) then ps + [from] else ps;
    }
  }

  lemma {:induction false} CompositorBreakIs(lines: seq<RatedLine>, from: nat)
    requires from <= |lines|
    ensures SawCompositorBreak(lines, from) <==> exists i :: from <= i < |lines| && lines[i].mentionsCompositor
    decreases |lines| - from
  {
    if from < |lines| {
      CompositorBreakIs(lines, from + 1);
    }
  }

  /** Of equal entries the first stays: what is appended changes nothing in front. */
  lemma {:induction false} DeduplicatedGrows(xs: seq<string>, ys: seq<string>)
    ensures Deduplicated(xs) <= Deduplicated(xs + ys)
    decreases |ys|
  {
    if ys == [] {
      assert xs + ys == xs;
    } else {
      DeduplicatedGrows(xs, ys[..|ys| - 1]);
      assert (xs + ys)[..|xs + ys| - 1] == xs + ys[..|ys| - 1];
    }
  }

  /** A frame whose library gdb would need more of: known by it alone, and not ignored. */
  predicate WantsSymbols(f: Frame) {
    !f.ignored && f.rating in {1, 3}
  }

  lemma WantedInReach(fs: seq<Frame>, i: nat)
    requires i < |fs|
    ensures RatedFrom(fs) <= i && MissesSymbols(fs[i]) <==> WantsSymbols(fs[i]) && InReach(fs, i)
  {
    ReachStart(fs, i);
  }

  /** The libraries found on the way up: those of the frames in reach that want symbols, the lowest first. */
  lemma LibrariesFound(lines: seq<RatedLine>) returns (ps: seq<nat>, found: seq<string>)
    ensures found == MissingLibraries(lines, RatedFrom(Frames(lines)))
    ensures Decreasing(ps) && forall i: nat :: i in ps <==>
              i < |lines| && WantsSymbols(lines[i].frame) && InReach(Frames(lines), i)
    ensures |found| == |ps| && forall k :: 0 <= k < |ps| ==> ps[k] < |lines| && found[k] == lines[ps[k]].library
  {
    var fs := Frames(lines);
    ps := MissingLibrariesAre(lines, RatedFrom(fs));
    found := MissingLibraries(lines, RatedFrom(fs));
    forall i: nat | i < |lines|
      ensures i in ps <==> WantsSymbols(lines[i].frame) && InReach(fs, i)
    {
      WantedInReach(fs, i);
    }
  }

  /** Old entries stay in front, and each further one comes behind those found before it. */
  lemma ListedInOrder(before: seq<string>, found: seq<string>, n: nat)
    requires n <= |found|
    ensures Deduplicated(before + found[..n]) <= Deduplicated(before + found)
  {
    DeduplicatedGrows(before + found[..n], found[n..]);
    assert before + found[..n] + found[n..] == before + found;
  }

  lemma CompositorInReach(lines: seq<RatedLine>)
    ensures SawCompositorBreak(lines, ExaminedFrom(Frames(lines)))
       <==> exists i :: 0 <= i < |lines| && lines[i].mentionsCompositor && InReach(Frames(lines), i + 1)
  {
    CompositorBreakIs(lines, ExaminedFrom(Frames(lines)));
    forall i: nat | i < |lines|
      ensures lines[i].mentionsCompositor && InReach(Frames(lines), i + 1)
         <==> lines[i].mentionsCompositor && ExaminedFrom(Frames(lines)) <= i
    {
      ReachStart(Frames(lines), i + 1);
    }
  }

  /** The library list is that of all frames in reach of the bottom, not only of those above the stack base: the old
      entries, and each new library in the order of the frames from the lowest up, every one once. The compositor is
      looked for in every line down from the last stack top's own. */
  lemma FindingsAre(lines: seq<RatedLine>, d: RatingData) returns (ps: seq<nat>, found: seq<string>)
    ensures Decreasing(ps) && forall i: nat :: i in ps <==>
              i < |lines| && WantsSymbols(lines[i].frame) && InReach(Frames(lines), i)
    ensures |found| == |ps| && forall k :: 0 <= k < |ps| ==> ps[k] < |lines| && found[k] == lines[ps[k]].library
    ensures var libraries := Calculated(lines, d).librariesWithMissingDebugSymbols;
            && (forall library :: library in libraries <==>
                  library in d.librariesWithMissingDebugSymbols || library in found)
            && (forall i, j :: 0 <= i < j < |libraries| ==> libraries[i] != libraries[j])
            && (forall n :: 0 <= n <= |found| ==>
                  Deduplicated(d.librariesWithMissingDebugSymbols + found[..n]) <= libraries)
    ensures Calculated(lines, d).compositorCrashed <==>
              || d.compositorCrashed
              || exists i :: 0 <= i < |lines| && lines[i].mentionsCompositor && InReach(Frames(lines), i + 1)
  {
    ps, found := LibrariesFound(lines);
    forall n | 0 <= n <= |found|
      ensures Deduplicated(d.librariesWithMissingDebugSymbols + found[..n])
           <= Deduplicated(d.librariesWithMissingDebugSymbols + found)
    {
      ListedInOrder(d.librariesWithMissingDebugSymbols, found, n);
    }
    CompositorInReach(lines);
  }
}
