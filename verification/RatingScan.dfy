/** One backward pass over the frames gives the rating window: the accumulators of calculateRatingData. */
module RatingScan {
  import opened Rating

  datatype Accumulators = Accumulators(rating: nat, best: nat, counter: nat, haveSeenStackBase: bool)

  /** The accumulators once the frames from index `low` on have been read. */
  function After(fs: seq<Frame>, low: nat): Accumulators
    requires low <= |fs|
  {
    var w := Counted(fs[low..WindowEnd(fs, low)]);
    Accumulators(U32(Weighted(w)), U32(Best(|w|)), U32(|w|), FirstBase(fs, low) < |fs|)
  }

  /** The loop body once it has decided to count the frame. */
  function CountIn(a: Accumulators, rating: int): Accumulators {
    var multiplier := U32(a.counter + 1);
    a.(counter := multiplier,
       rating := U32(a.rating + U32(U32(rating) * multiplier)),
       best := U32(a.best + U32(4 * multiplier)))
  }

  /** The loop body for a frame that does not end the loop. */
  function Step(a: Accumulators, f: Frame): Accumulators {
    var b := if f.base then Accumulators(0, 0, 0, true) else a;
    if f.ignored then b else CountIn(b, f.rating)
  }

  lemma WrapPlus(x: int, k: int)
    ensures U32(x + k * 0x1_0000_0000) == U32(x)
  {
  }

  lemma WrapSum(x: int, y: int)
    ensures U32(U32(x) + U32(y)) == U32(x + y)
  {
    WrapPlus(x + y, -(x / 0x1_0000_0000) - (y / 0x1_0000_0000));
  }

  lemma WrapProduct(x: int, y: int)
    ensures U32(U32(x) * U32(y)) == U32(x * y)
  {
    var M := 0x1_0000_0000;
    var p, q := x / M, y / M;
    assert U32(x) * U32(y) == (x - p * M) * (y - q * M);
    assert (x - p * M) * (y - q * M) == x * y + (p * q * M - p * y - q * x) * M;
    WrapPlus(x * y, p * q * M - p * y - q * x);
  }

  lemma WrapAdded(sum: int, factor: int, n: int)
    ensures U32(U32(sum) + U32(U32(factor) * U32(n))) == U32(sum + factor * n)
  {
    WrapProduct(factor, n);
    WrapSum(sum, factor * n);
  }

  lemma WeightedCons(f: Frame, w: seq<Frame>)
    ensures Weighted([f] + w) == Weighted(w) + f.rating * (|w| + 1)
  {
    assert ([f] + w)[1..] == w;
  }

  lemma BestCons(n: nat)
    ensures Best(n + 1) == Best(n) + 4 * (n + 1)
  {
    assert (n + 1) * (n + 2) == n * (n + 1) + 2 * (n + 1);
  }

  lemma WrapSuccessor(n: nat)
    ensures U32(U32(n) + 1) == U32(n + 1)
  {
    WrapSum(n, 1);
  }

  lemma CountInWraps(sum: int, best: int, n: nat, seen: bool, rating: int, sum': int, best': int)
    requires sum' == sum + rating * (n + 1) && best' == best + 4 * (n + 1)
    ensures CountIn(Accumulators(U32(sum), U32(best), U32(n), seen), rating)
         == Accumulators(U32(sum'), U32(best'), U32(n + 1), seen)
  {
    WrapSuccessor(n);
    WrapAdded(sum, rating, n + 1);
    WrapAdded(best, 4, n + 1);
    FourFits();
  }

  lemma FourFits()
    ensures U32(4) == 4
  {
  }

  lemma SumsOfOneMore(w: seq<Frame>, f: Frame)
    ensures Weighted([f] + w) == Weighted(w) + f.rating * (|w| + 1) && Best(|w| + 1) == Best(|w|) + 4 * (|w| + 1)
  {
    WeightedCons(f, w);
    BestCons(|w|);
  }

  /** Counting one more frame on top of the window. */
  lemma CountInIsExact(w: seq<Frame>, f: Frame, seen: bool)
    ensures CountIn(Accumulators(U32(Weighted(w)), U32(Best(|w|)), U32(|w|), seen), f.rating)
         == Accumulators(U32(Weighted([f] + w)), U32(Best(|w| + 1)), U32(|w| + 1), seen)
  {
    CountInWraps(Weighted(w), Best(|w|), |w|, seen, f.rating, Weighted([f] + w), Best(|w| + 1)) by {
      SumsOfOneMore(w, f);
    }
  }

  lemma CountedCons(f: Frame, fs: seq<Frame>)
    ensures Counted([f] + fs) == if f.ignored then Counted(fs) else [f] + Counted(fs)
  {
    assert ([f] + fs)[1..] == fs;
  }

  lemma BaseStep(fs: seq<Frame>, low: nat)
    requires low < |fs| && fs[low].base
    ensures Step(After(fs, low + 1), fs[low]) == After(fs, low)
  {
    var f := fs[low];
    assert fs[low..low + 1] == [f] == [f] + [];
    CountedCons(f, []);
    CountInIsExact([], f, true);
    assert [f] + [] == [f];
  }

  lemma SliceHead(fs: seq<Frame>, low: nat, e: nat)
    requires low < e <= |fs|
    ensures fs[low..e] == [fs[low]] + fs[low + 1..e]
  {
  }

  lemma OtherStep(fs: seq<Frame>, low: nat)
    requires low < |fs| && !fs[low].base
    ensures Step(After(fs, low + 1), fs[low]) == After(fs, low)
  {
    var f, e := fs[low], WindowEnd(fs, low);
    assert e == WindowEnd(fs, low + 1);
    SliceHead(fs, low, e);
    CountedCons(f, fs[low + 1..e]);
    CountInIsExact(Counted(fs[low + 1..e]), f, FirstBase(fs, low) < |fs|);
  }

  /** Reading frame `low` takes the accumulators from After(low + 1) to After(low). */
  lemma StepIsAfter(fs: seq<Frame>, low: nat)
    requires low < |fs|
    ensures Step(After(fs, low + 1), fs[low]) == After(fs, low)
  {
    if fs[low].base {
      BaseStep(fs, low);
    } else {
      OtherStep(fs, low);
    }
  }

  /** The accumulators after the loop has read frames |fs| - 1 down to low. */
  function Scanned(fs: seq<Frame>, low: nat): Accumulators
    requires low <= |fs|
    decreases |fs| - low
  {
    if low == |fs| then Accumulators(0, 0, 0, false) else Step(Scanned(fs, low + 1), fs[low])
  }

  lemma {:induction false} ScannedIsAfter(fs: seq<Frame>, low: nat)
    requires low <= |fs|
    ensures Scanned(fs, low) == After(fs, low)
    decreases |fs| - low
  {
    if low == |fs| {
      assert fs[|fs|..|fs|] == [];
    } else {
      ScannedIsAfter(fs, low + 1);
      StepIsAfter(fs, low);
    }
  }

  predicate NoStopFrom(fs: seq<Frame>, low: nat) {
    forall j :: low <= j < |fs| ==> !fs[j].Stops()
  }

  /** The window starts where the scan stopped. */
  lemma {:induction false} StartIs(fs: seq<Frame>, low: nat)
    requires low <= |fs| && NoStopFrom(fs, low) && (low > 0 ==> fs[low - 1].Stops())
    ensures WindowStart(fs) == low
  {
    if low < |fs| {
      StartIs(fs[..|fs| - 1], low);
    }
  }

  /** Where the scan ends: below a stack top, below an unknown first frame, or at the front. */
  predicate ScanEnds(fs: seq<Frame>, low: nat) {
    && low <= |fs|
    && NoStopFrom(fs, low)
    && (if low == 0 then !DropsFirst(fs) else fs[low - 1].Stops() || (low == 1 && DropsFirst(fs)))
  }

  /** So the accumulators at the end of the scan describe the rating window. */
  lemma ScanIsWindow(fs: seq<Frame>, low: nat)
    requires AllValid(fs) && ScanEnds(fs, low)
    ensures RatedFrom(fs) == low
    ensures WindowStart(fs) == if low == 1 && DropsFirst(fs) then 0 else low
    ensures Scanned(fs, low)
         == Accumulators(U32(Weighted(Window(fs))), U32(Best(|Window(fs)|)), U32(|Window(fs)|), HasBase(fs))
  {
    ScannedIsAfter(fs, low);
    if low == 1 && DropsFirst(fs) {
      StartIs(fs, 0);
    } else {
      StartIs(fs, low);
    }
  }
}
