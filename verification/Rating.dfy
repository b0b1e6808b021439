/** The rating window of BacktraceParser::calculateRatingData, as a declarative window and a weighted sum. */
module Rating {

  /** What the backward loop looks at in one line. */
  datatype Frame = Frame(rating: int, base: bool, top: bool, ignored: bool)
  {
    /** MissingEverything and MissingFunction frames are neither a stack base nor a stack top. */
    predicate Valid() {
      -1 <= rating <= 4 && ((base || top) ==> rating != 0 && rating != 1)
    }

    /** The loop leaves at such a frame; a stack base is recognised first. */
    predicate Stops() {
      top && !base
    }
  }

  predicate AllValid(fs: seq<Frame>) {
    forall i :: 0 <= i < |fs| ==> fs[i].Valid()
  }

  /** Index just below the last stack top, 0 if there is none. */
  function WindowStart(fs: seq<Frame>): (a: nat)
    ensures a <= |fs|
    ensures a > 0 ==> fs[a - 1].Stops()
    ensures forall j :: a <= j < |fs| ==> !fs[j].Stops()
  {
    if fs == [] then 0
    else if fs[|fs| - 1].Stops() then |fs|
    else WindowStart(fs[..|fs| - 1])
  }

  /** First stack base at or below index `from`, or the length. */
  function FirstBase(fs: seq<Frame>, from: nat): (b: nat)
    requires from <= |fs|
    ensures from <= b <= |fs|
    ensures b < |fs| ==> fs[b].base
    ensures forall j :: from <= j < b ==> !fs[j].base
    decreases |fs| - from
  {
    if from == |fs| || fs[from].base then from else FirstBase(fs, from + 1)
  }

  function WindowEnd(fs: seq<Frame>, from: nat): (e: nat)
    requires from <= |fs|
    ensures from <= e <= |fs|
    ensures from < |fs| ==> from < e
  {
    var b := FirstBase(fs, from);
    if b < |fs| then b + 1 else |fs|
  }

  function Counted(fs: seq<Frame>): (r: seq<Frame>)
    ensures |r| <= |fs|
  {
    if fs == [] then []
    else if fs[0].ignored then Counted(fs[1..])
    else [fs[0]] + Counted(fs[1..])
  }

  /** A very first frame with nothing known about it is not held against the trace (bug 190882). */
  predicate DropsFirst(fs: seq<Frame>) {
    fs != [] && fs[0].rating == 0
  }

  /** Index of the first frame the rating takes into account. */
  function RatedFrom(fs: seq<Frame>): (a: nat)
    ensures a <= |fs|
  {
    var a := WindowStart(fs);
    if a == 0 && DropsFirst(fs) then 1 else a
  }

  /** The frames that count: from below the last stack top down to the first stack base. */
  function Window(fs: seq<Frame>): seq<Frame> {
    Counted(fs[RatedFrom(fs)..WindowEnd(fs, RatedFrom(fs))])
  }

  predicate HasBase(fs: seq<Frame>) {
    FirstBase(fs, RatedFrom(fs)) < |fs|
  }

  /** The topmost of n counted frames has weight n, the lowest weight 1. */
  function Weighted(w: seq<Frame>): int {
    if w == [] then 0 else w[0].rating * |w| + Weighted(w[1..])
  }

  function Best(count: nat): nat {
    2 * count * (count + 1)
  }

  // ---- The verdict ----

  datatype Usefulness = InvalidUsefulness | Useless | ProbablyUseless | MayBeUseful | ReallyUseful
  {
    function Rank(): nat {
      match this
      case InvalidUsefulness => 0
      case Useless => 1
      case ProbablyUseless => 2
      case MayBeUseful => 3
      case ReallyUseful => 4
    }
  }

  function Lowered(u: Usefulness): Usefulness {
    match u
    case ReallyUseful => MayBeUseful
    case MayBeUseful => ProbablyUseless
    case _ => Useless
  }

  /** The thresholds 0.90, 0.70 and 0.40, compared exactly, and the downgrade without a stack base. */
  function Verdict(rating: int, best: int, count: int, haveSeenStackBase: bool): (u: Usefulness)
    ensures u != InvalidUsefulness
  {
    var u := if 10 * rating >= 9 * best then ReallyUseful
             else if 10 * rating >= 7 * best then MayBeUseful
             else if 10 * rating >= 4 * best then ProbablyUseless
             else Useless;
    if haveSeenStackBase then u
    else if count < 1 then Useless
    else Lowered(u)
  }

  /** The verdict in unbounded arithmetic. */
  function ExactVerdict(fs: seq<Frame>): Usefulness {
    var w := Window(fs);
    Verdict(Weighted(w), Best(|w|), |w|, HasBase(fs))
  }

  function U32(x: int): (r: nat)
    ensures r < 0x1_0000_0000
  {
    x % 0x1_0000_0000
  }

  /** The verdict of the code, whose three sums are 32-bit unsigned. */
  function MachineVerdict(fs: seq<Frame>): Usefulness {
    var w := Window(fs);
    Verdict(U32(Weighted(w)), U32(Best(|w|)), U32(|w|), HasBase(fs))
  }
}
