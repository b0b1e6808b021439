/** The two loops of calculateRatingData, over m_linesToRate. */
module RatingLoops {
  import opened Sequences
  import opened Rating
  import opened RatingScan
  import opened SimplifiedBacktrace
  import opened RatingReport

  /** The three sums of the backward loop, in 32-bit unsigned arithmetic. */
  method CountFrame(rating: nat, best: nat, counter: nat, ghost seen: bool, value: int)
    returns (rating': nat, best': nat, counter': nat)
    ensures Accumulators(rating', best', counter', seen) == CountIn(Accumulators(rating, best, counter, seen), value)
  {
    counter' := U32(counter + 1);
    var multiplier := counter';
    rating' := U32(rating + U32(U32(value) * multiplier));
    best' := U32(best + U32(4 * multiplier));
  }

  /** One turn of the backward loop, for a line that does not end it. */
  method RateFrame(line: RatedLine, rating: nat, best: nat, counter: nat, haveSeenStackBase: bool,
                   libraries: seq<string>)
    returns (rating': nat, best': nat, counter': nat, haveSeenStackBase': bool, libraries': seq<string>)
    ensures Accumulators(rating', best', counter', haveSeenStackBase')
         == Step(Accumulators(rating, best, counter, haveSeenStackBase), line.frame)
    ensures libraries' == libraries + (if MissesSymbols(line.frame) then [line.library] else [])
  {
    rating', best', counter', haveSeenStackBase', libraries' := rating, best, counter, haveSeenStackBase, libraries;
    if line.frame.base {
      rating', best', counter' := 0, 0, 0;
      haveSeenStackBase' := true;
    }
    if line.frame.ignored {
      return;
    }
    if line.frame.rating == 1 || line.frame.rating == 3 {
      libraries' := libraries + [line.library];
    }
    rating', best', counter' := CountFrame(rating', best', counter', haveSeenStackBase', line.frame.rating);
  }

  /** The backward loop of calculateRatingData; `low` is the topmost frame it has taken in. */
  method ScanFrames(lines: seq<RatedLine>, d: RatingData)
    returns (rating: nat, best: nat, counter: nat, haveSeenStackBase: bool, compositorCrashed: bool,
             libraries: seq<string>, low: nat)
    ensures ScanEnds(Frames(lines), low)
    ensures Accumulators(rating, best, counter, haveSeenStackBase) == Scanned(Frames(lines), low)
    ensures compositorCrashed == (d.compositorCrashed || SawCompositorBreak(lines, if low > 0 then low - 1 else 0))
    ensures libraries == d.librariesWithMissingDebugSymbols + MissingLibraries(lines, low)
  {
    rating, best, counter, haveSeenStackBase := 0, 0, 0, false;
    compositorCrashed, libraries := d.compositorCrashed, d.librariesWithMissingDebugSymbols;
    ghost var fs := Frames(lines);
    var i := |lines|;
    low := i;
    while i > 0
      invariant i == low <= |lines| && NoStopFrom(fs, low)
      invariant low == 0 ==> !DropsFirst(fs)
      invariant Accumulators(rating, best, counter, haveSeenStackBase) == Scanned(fs, low)
      invariant compositorCrashed == (d.compositorCrashed || SawCompositorBreak(lines, i))
      invariant libraries == d.librariesWithMissingDebugSymbols + MissingLibraries(lines, low)
    {
      i := i - 1;
      var line := lines[i];
      if !compositorCrashed && line.mentionsCompositor {
        compositorCrashed := true;
      }
      if i == 0 && line.frame.rating == 0 {
        break;
      }
      if !line.frame.base && line.frame.top {
        break;
      }
      rating, best, counter, haveSeenStackBase, libraries :=
        RateFrame(line, rating, best, counter, haveSeenStackBase, libraries);
      low := i;
    }
  }

  /** What the backward loop amounts to: the sums of the rating window, and what was found on the way to it. */
  method RateFrames(lines: seq<RatedLine>, d: RatingData)
    returns (rating: nat, best: nat, counter: nat, haveSeenStackBase: bool, compositorCrashed: bool,
             libraries: seq<string>)
    requires AllValid(Frames(lines))
    ensures var fs := Frames(lines); var w := Window(fs);
            && rating == U32(Weighted(w)) && best == U32(Best(|w|)) && counter == U32(|w|)
            && haveSeenStackBase == HasBase(fs)
            && compositorCrashed == (d.compositorCrashed || SawCompositorBreak(lines, ExaminedFrom(fs)))
            && libraries == d.librariesWithMissingDebugSymbols + MissingLibraries(lines, RatedFrom(fs))
  {
    var low;
    rating, best, counter, haveSeenStackBase, compositorCrashed, libraries, low := ScanFrames(lines, d);
    ScanIsWindow(Frames(lines), low);
  }

  /** The forward loop of calculateRatingData. */
  method Simplify(lines: seq<RatedLine>, before: string) returns (simplifiedBacktrace: string)
    ensures simplifiedBacktrace == Listing(before, Items(lines), 0, 0, false)
  {
    simplifiedBacktrace := before;
    var i, functionIndex, firstUsefulFound := 0, 0, false;
    while i < |lines| && functionIndex < SUMMARY_SIZE
      invariant i <= |lines|
      invariant Listing(before, Items(lines), 0, 0, false)
             == Listing(simplifiedBacktrace, Items(lines), i, functionIndex, firstUsefulFound)
    {
      var line := lines[i];
      i := i + 1;
      if line.item.useful {
        if !firstUsefulFound {
          firstUsefulFound := true;
        }
        simplifiedBacktrace := simplifiedBacktrace + line.item.text;
        functionIndex := functionIndex + 1;
      } else if firstUsefulFound {
        if !EndsWith(simplifiedBacktrace, GAP) {
          simplifiedBacktrace := simplifiedBacktrace + GAP;
        }
      }
    }
  }

  /** The thresholds at the end of calculateRatingData. */
  method Judge(rating: nat, best: nat, counter: nat, haveSeenStackBase: bool) returns (usefulness: Usefulness)
    ensures usefulness == Verdict(rating, best, counter, haveSeenStackBase)
  {
    usefulness := Useless;
    if 10 * rating >= 9 * best {
      usefulness := ReallyUseful;
    } else if 10 * rating >= 7 * best {
      usefulness := MayBeUseful;
    } else if 10 * rating >= 4 * best {
      usefulness := ProbablyUseless;
    }
    if !haveSeenStackBase {
      if counter < 1 {
        usefulness := Useless;
      } else if usefulness.Rank() > Useless.Rank() {
        usefulness := Lowered(usefulness);
      }
    }
  }

  /** calculateRatingData: the verdict is that of the rating window, the two lists grow by their loops' findings. */
  method Calculate(lines: seq<RatedLine>, d: RatingData) returns (r: RatingData)
    requires AllValid(Frames(lines))
    ensures r == Calculated(lines, d)
  {
    var rating, best, counter, haveSeenStackBase, compositorCrashed, libraries := RateFrames(lines, d);
    var simplified := Simplify(lines, d.simplifiedBacktrace);
    var usefulness := Judge(rating, best, counter, haveSeenStackBase);
    r := RatingData(simplified, Deduplicated(libraries), usefulness, compositorCrashed);
  }
}
