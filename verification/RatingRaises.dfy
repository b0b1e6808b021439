/** Which traces can lose rank when more becomes known about them: the exact condition. */
module RatingRaises {
  import opened Rating
  import opened RatingScan
  import opened RatingLaws

  /** However the ratings are raised, the verdict stays at least as good. */
  ghost predicate NeverLowered(fs: seq<Frame>) {
    forall gs :: Raises(fs, gs) && AllRated(gs) ==> ExactVerdict(fs).Rank() <= ExactVerdict(gs).Rank()
  }

  /** c frames with sum W are at k tenths of the best, and one more frame of rating 1 on top takes them below. */
  predicate Crosses(k: nat, W: int, c: nat) {
    k * Best(c) <= 10 * W < k * Best(c) + (4 * k - 10) * (c + 1)
  }

  /** One threshold is enough; without a stack base the two lowest verdicts are one. */
  predicate CrossesAny(W: int, c: nat, seen: bool) {
    (seen || c > 0) && (Crosses(9, W, c) || Crosses(7, W, c) || (seen && Crosses(4, W, c)))
  }

  /** The first frame is exempt so far, would count once its library is known, and a threshold is that close. */
  predicate FirstFrameCosts(fs: seq<Frame>) {
    var w := Window(fs);
    && DropsFirst(fs) && WindowStart(fs) == 0 && !fs[0].ignored
    && CrossesAny(Weighted(w), |w|, HasBase(fs))
  }

  /** The frames counted from index a down to the first stack base. */
  function WindowFrom(fs: seq<Frame>, a: nat): seq<Frame>
    requires a <= |fs|
  {
    Counted(fs[a..WindowEnd(fs, a)])
  }

  lemma FirstIsNoBase(fs: seq<Frame>)
    requires fs != [] && !fs[0].base && WindowStart(fs) == 0
    ensures HasBase(fs) == (FirstBase(fs, 1) < |fs|)
    ensures Window(fs) == if DropsFirst(fs) || fs[0].ignored then WindowFrom(fs, 1) else [fs[0]] + WindowFrom(fs, 1)
  {
    var e := WindowEnd(fs, 1);
    assert FirstBase(fs, 0) == FirstBase(fs, 1);
    if !DropsFirst(fs) {
      SliceHead(fs, 0, e);
      CountedCons(fs[0], fs[1..e]);
    }
  }

  lemma WindowFromRaises(fs: seq<Frame>, gs: seq<Frame>, a: nat)
    requires Raises(fs, gs) && a <= |fs|
    ensures Raises(WindowFrom(fs, a), WindowFrom(gs, a)) && FirstBase(fs, a) == FirstBase(gs, a)
  {
    SameBase(fs, gs, a);
    var e := WindowEnd(fs, a);
    SliceRaises(fs, gs, a, e);
    CountedRaises(fs[a..e], gs[a..e]);
  }

  /** Unless the first frame comes into the window, it is the same frames that count. */
  lemma SafeRaise(fs: seq<Frame>, gs: seq<Frame>)
    requires AllValid(fs) && AllRated(fs) && Raises(fs, gs)
    requires DropsFirst(fs) == DropsFirst(gs) || WindowStart(fs) > 0 || fs[0].ignored
    ensures ExactVerdict(fs).Rank() <= ExactVerdict(gs).Rank()
  {
    if DropsFirst(fs) == DropsFirst(gs) {
      RaisingNeverLowers(fs, gs);
    } else {
      SameStart(fs, gs);
      if WindowStart(fs) > 0 {
        WindowBelowTopRaises(fs, gs);
      } else {
        FirstIsNoBase(fs);
        FirstIsNoBase(gs);
        WindowFromRaises(fs, gs, 1);
      }
      RaisedWindow(fs, gs);
    }
  }

  lemma WindowBelowTopRaises(fs: seq<Frame>, gs: seq<Frame>)
    requires Raises(fs, gs) && WindowStart(fs) == WindowStart(gs) > 0
    ensures Raises(Window(fs), Window(gs)) && HasBase(fs) == HasBase(gs)
  {
    WindowFromRaises(fs, gs, WindowStart(fs));
  }

  lemma RaisedWindow(fs: seq<Frame>, gs: seq<Frame>)
    requires Raises(Window(fs), Window(gs)) && HasBase(fs) == HasBase(gs)
    ensures ExactVerdict(fs).Rank() <= ExactVerdict(gs).Rank()
  {
    WeightedRaises(Window(fs), Window(gs));
    VerdictMonotone(Weighted(Window(fs)), Weighted(Window(gs)), Best(|Window(fs)|), |Window(fs)|, HasBase(fs));
  }

  /** The verdict once the first frame counts on top of c others with sum W. */
  function WithFirst(W: int, c: nat, rating: int, seen: bool): Usefulness {
    Verdict(W + rating * (c + 1), Best(c + 1), c + 1, seen)
  }

  lemma WithFirstIs(fs: seq<Frame>, w: seq<Frame>, first: Frame)
    requires Window(fs) == [first] + w
    ensures ExactVerdict(fs) == WithFirst(Weighted(w), |w|, first.rating, HasBase(fs))
  {
    WeightedCons(first, w);
  }

  /** Knowing just the library of the first frame, and nothing new elsewhere. */
  function Worst(fs: seq<Frame>): seq<Frame>
    requires fs != []
  {
    fs[0 := fs[0].(rating := 1)]
  }

  lemma FirstComesIn(fs: seq<Frame>, gs: seq<Frame>)
    requires AllValid(fs) && Raises(fs, gs)
    requires DropsFirst(fs) && !DropsFirst(gs) && WindowStart(fs) == 0 && !fs[0].ignored
    ensures Raises(Window(fs), WindowFrom(gs, 1)) && HasBase(fs) == HasBase(gs)
    ensures Window(gs) == [gs[0]] + WindowFrom(gs, 1)
  {
    SameStart(fs, gs);
    FirstIsNoBase(fs);
    FirstIsNoBase(gs);
    WindowFromRaises(fs, gs, 1);
  }

  lemma SameBelowWorst(fs: seq<Frame>)
    requires AllValid(fs) && DropsFirst(fs)
    ensures Raises(fs, Worst(fs)) && WindowFrom(Worst(fs), 1) == WindowFrom(fs, 1)
  {
    SameBase(fs, Worst(fs), 1);
    var e := WindowEnd(fs, 1);
    assert Worst(fs)[1..e] == fs[1..e];
  }

  lemma WorstIsRating1(fs: seq<Frame>)
    requires AllValid(fs) && DropsFirst(fs) && WindowStart(fs) == 0 && !fs[0].ignored
    ensures ExactVerdict(Worst(fs)) == WithFirst(Weighted(Window(fs)), |Window(fs)|, 1, HasBase(fs))
  {
    SameBelowWorst(fs);
    FirstIsNoBase(fs);
    FirstComesIn(fs, Worst(fs));
    WithFirstIs(Worst(fs), Window(fs), Worst(fs)[0]);
  }

  /** No raise that lets the first frame in does worse than the smallest one. */
  lemma WorstIsWorst(fs: seq<Frame>, gs: seq<Frame>)
    requires AllValid(fs) && Raises(fs, gs)
    requires DropsFirst(fs) && !DropsFirst(gs) && WindowStart(fs) == 0 && !fs[0].ignored
    ensures WithFirst(Weighted(Window(fs)), |Window(fs)|, 1, HasBase(fs)).Rank() <= ExactVerdict(gs).Rank()
  {
    FirstComesIn(fs, gs);
    WithFirstIs(gs, WindowFrom(gs, 1), gs[0]);
    WithFirstGrows(Window(fs), WindowFrom(gs, 1), gs[0].rating, HasBase(fs));
  }

  lemma WithFirstGrows(w: seq<Frame>, w': seq<Frame>, rating: int, seen: bool)
    requires Raises(w, w') && rating >= 1
    ensures WithFirst(Weighted(w), |w|, 1, seen).Rank() <= WithFirst(Weighted(w'), |w'|, rating, seen).Rank()
  {
    WeightedRaises(w, w');
    AtLeastOnce(rating, |w| + 1);
    VerdictMonotone(Weighted(w) + 1 * (|w| + 1), Weighted(w') + rating * (|w| + 1), Best(|w| + 1), |w| + 1, seen);
  }

  lemma AtLeastOnce(rating: int, n: nat)
    requires rating >= 1
    ensures 1 * n <= rating * n
  {
  }

  lemma RankAtThresholds(rating: int, best: nat, count: nat)
    ensures Verdict(rating, best, count, true).Rank()
         == 1 + (if 10 * rating >= 9 * best then 1 else 0) + (if 10 * rating >= 7 * best then 1 else 0)
            + (if 10 * rating >= 4 * best then 1 else 0)
    ensures count > 0 ==>
              Verdict(rating, best, count, false).Rank()
              == 1 + (if 10 * rating >= 9 * best then 1 else 0) + (if 10 * rating >= 7 * best then 1 else 0)
  {
  }

  lemma CrossingIs(k: nat, W: int, c: nat)
    ensures Crosses(k, W, c) <==> 10 * W >= k * Best(c) && 10 * (W + 1 * (c + 1)) < k * Best(c + 1)
  {
    BestCons(c);
    assert k * Best(c + 1) == k * Best(c) + k * 4 * (c + 1);
    assert (4 * k - 10) * (c + 1) == k * 4 * (c + 1) - 10 * (c + 1);
  }

  /** The first frame lowers the verdict exactly when it takes the sums across a threshold that matters. */
  lemma LowersExactlyWhen(W: int, c: nat, seen: bool)
    requires 0 <= W
    ensures WithFirst(W, c, 1, seen).Rank() < Verdict(W, Best(c), c, seen).Rank()
       <==> CrossesAny(W, c, seen)
  {
    CrossingIs(9, W, c);
    CrossingIs(7, W, c);
    CrossingIs(4, W, c);
    RanksCompared(W, Best(c), W + 1 * (c + 1), Best(c + 1), c, seen);
  }

  lemma RanksCompared(r: int, best: nat, r': int, best': nat, c: nat, seen: bool)
    ensures Verdict(r', best', c + 1, seen).Rank() < Verdict(r, best, c, seen).Rank()
       <==> && (seen || c > 0)
            && (|| (10 * r >= 9 * best && 10 * r' < 9 * best')
                || (10 * r >= 7 * best && 10 * r' < 7 * best')
                || (seen && 10 * r >= 4 * best && 10 * r' < 4 * best'))
  {
    RankAtThresholds(r, best, c);
    RankAtThresholds(r', best', c + 1);
  }

  lemma WithFirstLowersExactlyWhen(w: seq<Frame>, seen: bool)
    requires AllRated(w)
    ensures WithFirst(Weighted(w), |w|, 1, seen).Rank() < Verdict(Weighted(w), Best(|w|), |w|, seen).Rank()
       <==> CrossesAny(Weighted(w), |w|, seen)
  {
    LowersExactlyWhen(Weighted(w), |w|, seen) by {
      WeightedBounds(w);
    }
  }

  lemma WorstLowersExactlyWhen(fs: seq<Frame>)
    requires AllValid(fs) && AllRated(fs) && DropsFirst(fs) && WindowStart(fs) == 0 && !fs[0].ignored
    ensures WithFirst(Weighted(Window(fs)), |Window(fs)|, 1, HasBase(fs)).Rank() < ExactVerdict(fs).Rank()
       <==> FirstFrameCosts(fs)
  {
    WindowIsRated(fs);
    WithFirstLowersExactlyWhen(Window(fs), HasBase(fs));
  }

  lemma FirstFrameDecides(fs: seq<Frame>)
    requires AllValid(fs) && AllRated(fs) && DropsFirst(fs) && WindowStart(fs) == 0 && !fs[0].ignored
    ensures NeverLowered(fs) <==> !FirstFrameCosts(fs)
  {
    WorstLowersExactlyWhen(fs);
    WorstIsRating1(fs);
    assert Raises(fs, Worst(fs)) && AllRated(Worst(fs));
    if !FirstFrameCosts(fs) {
      forall gs | Raises(fs, gs) && AllRated(gs)
        ensures ExactVerdict(fs).Rank() <= ExactVerdict(gs).Rank()
      {
        if DropsFirst(gs) {
          SafeRaise(fs, gs);
        } else {
          WorstIsWorst(fs, gs);
        }
      }
    }
  }

  /** Better debug information can lower a trace's verdict if and only if its first frame does it: exempt so far, not
      ignored, no stack top below it, and a threshold between the sums without it and with it. */
  lemma LoweredExactlyWhen(fs: seq<Frame>)
    requires AllValid(fs) && AllRated(fs)
    ensures NeverLowered(fs) <==> !FirstFrameCosts(fs)
  {
    if DropsFirst(fs) && WindowStart(fs) == 0 && !fs[0].ignored {
      FirstFrameDecides(fs);
    } else {
      forall gs | Raises(fs, gs) && AllRated(gs)
        ensures ExactVerdict(fs).Rank() <= ExactVerdict(gs).Rank()
      {
        SafeRaise(fs, gs);
      }
    }
  }
}
