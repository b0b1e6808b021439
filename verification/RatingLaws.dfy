/** What the rating guarantees: bounds, exactness, monotonicity and blindness below the stack base. */
module RatingLaws {
  import opened Rating

  predicate AllRated(w: seq<Frame>) {
    forall i :: 0 <= i < |w| ==> 0 <= w[i].rating <= 4
  }

  lemma {:induction false} WeightedBounds(w: seq<Frame>)
    requires AllRated(w)
    ensures 0 <= Weighted(w) <= Best(|w|)
  {
    if w != [] {
      WeightedBounds(w[1..]);
      var n := |w|;
      assert 0 <= w[0].rating * n <= 4 * n;
      assert Best(n - 1) + 4 * n == Best(n);
    }
  }

  lemma BestGrows(m: nat, n: nat)
    requires m <= n
    ensures Best(m) <= Best(n)
  {
    assert m * (m + 1) <= n * (m + 1) <= n * (n + 1);
  }

  /** 32 bits hold the best possible rating of up to 46340 counted frames, and of no more. */
  lemma BestFits(count: nat)
    ensures Best(count) < 0x1_0000_0000 <==> count <= 46340
  {
    if count <= 46340 {
      BestGrows(count, 46340);
    } else {
      BestGrows(46341, count);
    }
  }

  lemma {:induction false} CountedAreMembers(fs: seq<Frame>)
    ensures forall i :: 0 <= i < |Counted(fs)| ==> Counted(fs)[i] in fs && !Counted(fs)[i].ignored
  {
    if fs != [] {
      CountedAreMembers(fs[1..]);
    }
  }

  lemma WindowIsRated(fs: seq<Frame>)
    requires AllRated(fs)
    ensures AllRated(Window(fs))
  {
    CountedAreMembers(fs[RatedFrom(fs)..WindowEnd(fs, RatedFrom(fs))]);
  }

  lemma FitsIsExact(x: int)
    requires 0 <= x < 0x1_0000_0000
    ensures U32(x) == x
  {
  }

  /** Up to 46340 counted frames the code's wrap-around arithmetic gives the exact verdict. */
  lemma MachineVerdictIsExact(fs: seq<Frame>)
    requires AllRated(fs) && |Window(fs)| <= 46340
    ensures MachineVerdict(fs) == ExactVerdict(fs)
    ensures 0 <= Weighted(Window(fs)) <= Best(|Window(fs)|) < 0x1_0000_0000
  {
    WindowIsRated(fs);
    WeightedBounds(Window(fs));
    BestFits(|Window(fs)|);
    FitsIsExact(Weighted(Window(fs)));
    FitsIsExact(Best(|Window(fs)|));
    FitsIsExact(|Window(fs)|);
  }

  // ---- Monotonicity ----

  /** gs is fs with ratings raised, everything else the loop looks at left alone. */
  predicate Raises(fs: seq<Frame>, gs: seq<Frame>) {
    && |fs| == |gs|
    && (forall i :: 0 <= i < |fs| ==> fs[i].rating <= gs[i].rating)
    && (forall i :: 0 <= i < |fs| ==>
          fs[i].base == gs[i].base && fs[i].top == gs[i].top && fs[i].ignored == gs[i].ignored)
  }

  lemma RaisesCons(f: Frame, g: Frame, fs: seq<Frame>, gs: seq<Frame>)
    requires Raises([f], [g]) && Raises(fs, gs)
    ensures Raises([f] + fs, [g] + gs)
  {
    assert [f][0] == f && [g][0] == g;
  }

  lemma {:induction false} CountedRaises(fs: seq<Frame>, gs: seq<Frame>)
    requires Raises(fs, gs)
    ensures Raises(Counted(fs), Counted(gs))
  {
    if fs != [] {
      CountedRaises(fs[1..], gs[1..]);
      RaisesCons(fs[0], gs[0], Counted(fs[1..]), Counted(gs[1..]));
    }
  }

  lemma {:induction false} WeightedRaises(fs: seq<Frame>, gs: seq<Frame>)
    requires Raises(fs, gs)
    ensures Weighted(fs) <= Weighted(gs)
  {
    if fs != [] {
      WeightedRaises(fs[1..], gs[1..]);
      assert fs[0].rating * |fs| <= gs[0].rating * |gs|;
    }
  }

  lemma {:induction false} SameStart(fs: seq<Frame>, gs: seq<Frame>)
    requires Raises(fs, gs)
    ensures WindowStart(fs) == WindowStart(gs)
  {
    if fs != [] && !fs[|fs| - 1].Stops() {
      SameStart(fs[..|fs| - 1], gs[..|gs| - 1]);
    }
  }

  lemma {:induction false} SameBase(fs: seq<Frame>, gs: seq<Frame>, from: nat)
    requires Raises(fs, gs) && from <= |fs|
    ensures FirstBase(fs, from) == FirstBase(gs, from)
    decreases |fs| - from
  {
    if from < |fs| && !fs[from].base {
      SameBase(fs, gs, from + 1);
    }
  }

  lemma VerdictMonotone(r: int, r': int, best: int, count: int, seen: bool)
    requires r <= r'
    ensures Verdict(r, best, count, seen).Rank() <= Verdict(r', best, count, seen).Rank()
  {
  }

  lemma SliceRaises(fs: seq<Frame>, gs: seq<Frame>, a: nat, e: nat)
    requires Raises(fs, gs) && a <= e <= |fs|
    ensures Raises(fs[a..e], gs[a..e])
  {
  }

  lemma SameBounds(fs: seq<Frame>, gs: seq<Frame>)
    requires Raises(fs, gs) && DropsFirst(fs) == DropsFirst(gs)
    ensures RatedFrom(fs) == RatedFrom(gs)
    ensures WindowEnd(fs, RatedFrom(fs)) == WindowEnd(gs, RatedFrom(fs)) && HasBase(fs) == HasBase(gs)
  {
    SameStart(fs, gs);
    SameBase(fs, gs, RatedFrom(fs));
  }

  lemma WindowRaises(fs: seq<Frame>, gs: seq<Frame>)
    requires Raises(fs, gs) && DropsFirst(fs) == DropsFirst(gs)
    ensures Raises(Window(fs), Window(gs))
  {
    SameBounds(fs, gs);
    var a := RatedFrom(fs);
    var e := WindowEnd(fs, a);
    SliceRaises(fs, gs, a, e);
    CountedRaises(fs[a..e], gs[a..e]);
  }

  /** Better debug information never makes a trace less useful, with or without a stack base. */
  lemma RaisingNeverLowers(fs: seq<Frame>, gs: seq<Frame>)
    requires Raises(fs, gs) && DropsFirst(fs) == DropsFirst(gs)
    ensures ExactVerdict(fs).Rank() <= ExactVerdict(gs).Rank()
  {
    SameBounds(fs, gs);
    WindowRaises(fs, gs);
    WeightedRaises(Window(fs), Window(gs));
    VerdictMonotone(Weighted(Window(fs)), Weighted(Window(gs)), Best(|Window(fs)|), |Window(fs)|, HasBase(fs));
  }

  /** The first frame's status does matter: knowing its library makes it count, and here costs two ranks. */
  lemma RaisingFirstFrameCanLower()
    ensures var base := Frame(4, true, false, false);
            && ExactVerdict([Frame(0, false, false, false), base]) == ReallyUseful
            && ExactVerdict([Frame(1, false, false, false), base]) == ProbablyUseless
  {
    var base := Frame(4, true, false, false);
    WindowOfTwo(Frame(0, false, false, false), base);
    WindowOfTwo(Frame(1, false, false, false), base);
  }

  lemma WindowOfTwo(first: Frame, base: Frame)
    requires first.Valid() && !first.base && !first.top && !first.ignored
    requires base.Valid() && base.base && !base.ignored
    ensures Window([first, base]) == if first.rating == 0 then [base] else [first, base]
    ensures Weighted(Window([first, base])) == base.rating + (if first.rating == 0 then 0 else 2 * first.rating)
    ensures HasBase([first, base])
  {
    var fs := [first, base];
    assert WindowStart(fs) == 0;
    assert FirstBase(fs, 0) == 1 && FirstBase(fs, 1) == 1;
    assert fs[0..2] == fs && fs[1..2] == [base];
    assert fs[1..] == [base];
    assert [base][1..] == [];
    assert Counted([base]) == [base] + [];
    assert Counted(fs) == [first] + [base] == fs;
    assert Weighted([base]) == base.rating * 1 + Weighted([]);
    assert Weighted(fs) == first.rating * 2 + Weighted([base]);
  }

  // ---- Blindness below the stack base ----

  predicate NoStop(fs: seq<Frame>) {
    forall i :: 0 <= i < |fs| ==> !fs[i].Stops()
  }

  lemma {:induction false} StartIgnoresBelow(fs: seq<Frame>, below: seq<Frame>)
    requires NoStop(below)
    ensures WindowStart(fs + below) == WindowStart(fs)
  {
    if below == [] {
      assert fs + below == fs;
    } else {
      StartIgnoresBelow(fs, below[..|below| - 1]);
      assert (fs + below)[..|fs + below| - 1] == fs + below[..|below| - 1];
    }
  }

  lemma {:induction false} BaseIgnoresBelow(fs: seq<Frame>, below: seq<Frame>, a: nat)
    requires a < |fs| && fs[|fs| - 1].base
    ensures FirstBase(fs + below, a) == FirstBase(fs, a) < |fs|
    decreases |fs| - a
  {
    if !fs[a].base {
      BaseIgnoresBelow(fs, below, a + 1);
    }
  }

  /** A trace that ends in a stack base is rated from some frame at or above it. */
  lemma StartsAboveBase(fs: seq<Frame>)
    requires fs != [] && fs[|fs| - 1].Valid() && fs[|fs| - 1].base
    ensures RatedFrom(fs) < |fs|
  {
  }

  lemma WindowIgnoresBelow(fs: seq<Frame>, below: seq<Frame>)
    requires fs != [] && fs[|fs| - 1].Valid() && fs[|fs| - 1].base && NoStop(below)
    ensures Window(fs + below) == Window(fs)
    ensures HasBase(fs + below) && HasBase(fs)
  {
    StartIgnoresBelow(fs, below);
    StartsAboveBase(fs);
    assert fs[0] == (fs + below)[0];
    var a := RatedFrom(fs);
    assert a == RatedFrom(fs + below);
    BaseIgnoresBelow(fs, below, a);
    var e := WindowEnd(fs, a);
    assert fs[a..e] == (fs + below)[a..e];
  }

  /** Whatever lies under a stack base, short of a stack top, leaves the verdict unchanged. */
  lemma BelowBaseIsIrrelevant(above: seq<Frame>, base: Frame, below: seq<Frame>, below': seq<Frame>)
    requires base.Valid() && base.base && NoStop(below) && NoStop(below')
    ensures ExactVerdict(above + [base] + below) == ExactVerdict(above + [base] + below')
    ensures MachineVerdict(above + [base] + below) == MachineVerdict(above + [base] + below')
  {
    WindowIgnoresBelow(above + [base], below);
    WindowIgnoresBelow(above + [base], below');
  }

  lemma {:induction false} NothingCounted(fs: seq<Frame>)
    requires forall i :: 0 <= i < |fs| ==> fs[i].ignored
    ensures Counted(fs) == []
  {
    if fs != [] {
      NothingCounted(fs[1..]);
    }
  }

  /** A trace with nothing but ignored frames down to its first stack base is rated best, whatever lies below. */
  lemma IgnoredDownToBase(above: seq<Frame>, base: Frame, below: seq<Frame>)
    requires forall i :: 0 <= i < |above| ==> above[i].ignored
    requires base.Valid() && base.base && base.ignored && NoStop(below)
    ensures ExactVerdict(above + [base] + below) == MachineVerdict(above + [base] + below) == ReallyUseful
  {
    var fs := above + [base];
    WindowIgnoresBelow(fs, below);
    NothingCounted(fs[RatedFrom(fs)..WindowEnd(fs, RatedFrom(fs))]);
  }
}
