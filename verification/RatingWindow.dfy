/** Which frames count for the rating, frame by frame. */
module RatingWindow {
  import opened Sequences
  import opened Rating

  /** No stack top, that is not a base, at or below frame i. */
  predicate InReach(fs: seq<Frame>, i: nat) {
    forall j :: i <= j < |fs| ==> !fs[j].top || fs[j].base
  }

  /** Frame i counts: not ignored, no stack top at or below it, no stack base in reach above it, and not a first frame
      about which nothing is known. */
  predicate Counts(fs: seq<Frame>, i: nat)
    requires i < |fs|
  {
    && !fs[i].ignored && InReach(fs, i) && (i == 0 ==> fs[0].rating != 0)
    && forall j :: 0 <= j < i && fs[j].base ==> !InReach(fs, j)
  }

  /** The counted frames from index a to below index e. */
  lemma {:induction false} CountedExactly(fs: seq<Frame>, a: nat, e: nat) returns (ps: seq<nat>)
    requires a <= e <= |fs|
    ensures Increasing(ps) && forall i: nat :: i in ps <==> a <= i < e && !fs[i].ignored
    ensures |Counted(fs[a..e])| == |ps|
    ensures forall k :: 0 <= k < |ps| ==> ps[k] < |fs| && Counted(fs[a..e])[k] == fs[ps[k]]
    decreases e - a
  {
    if a == e {
      ps := [];
    } else {
      var rest := CountedExactly(fs, a + 1, e);
      assert fs[a..e][1..] == fs[a + 1..e];
      ps := rest;
      if !fs[a].ignored {
        assert forall k :: 0 <= k < |rest| ==> rest[k] in rest;
        IncreasingCons(a, rest);
        ps := [a] + rest;
      }
    }
  }

  lemma ReachStart(fs: seq<Frame>, i: nat)
    requires i <= |fs|
    ensures InReach(fs, i) <==> WindowStart(fs) <= i
  {
    var a := WindowStart(fs);
    if a > 0 && i < a {
      assert fs[a - 1].Stops();
    }
  }

  lemma InWindow(fs: seq<Frame>, i: nat)
    requires AllValid(fs) && i < |fs|
    ensures RatedFrom(fs) <= i < WindowEnd(fs, RatedFrom(fs)) && !fs[i].ignored <==> Counts(fs, i)
  {
    var a, from := WindowStart(fs), RatedFrom(fs);
    forall j | 0 <= j <= |fs|
      ensures InReach(fs, j) <==> a <= j
    {
      ReachStart(fs, j);
    }
    var b := FirstBase(fs, from);
    if from == 1 && a == 0 {
      assert fs[0].Valid() && !fs[0].base;
    }
    if i >= WindowEnd(fs, from) {
      assert fs[b].base && InReach(fs, b);
    }
  }

  /** The rating window holds exactly the frames that count, in order. */
  lemma WindowExactly(fs: seq<Frame>) returns (ps: seq<nat>)
    requires AllValid(fs)
    ensures Increasing(ps) && forall i: nat :: i in ps <==> i < |fs| && Counts(fs, i)
    ensures |Window(fs)| == |ps| && forall k :: 0 <= k < |ps| ==> ps[k] < |fs| && Window(fs)[k] == fs[ps[k]]
  {
    ps := CountedExactly(fs, RatedFrom(fs), WindowEnd(fs, RatedFrom(fs)));
    forall i: nat | i < |fs|
      ensures i in ps <==> Counts(fs, i)
    {
      InWindow(fs, i);
    }
  }

  /** A stack base counts as seen exactly when one is in reach. */
  lemma BaseExactly(fs: seq<Frame>)
    requires AllValid(fs)
    ensures HasBase(fs) <==> exists i :: 0 <= i < |fs| && fs[i].base && InReach(fs, i)
  {
    var a, from := WindowStart(fs), RatedFrom(fs);
    forall j | 0 <= j <= |fs|
      ensures InReach(fs, j) <==> a <= j
    {
      ReachStart(fs, j);
    }
    if from == 1 && a == 0 {
      assert fs[0].Valid() && !fs[0].base;
    }
    if HasBase(fs) {
      assert fs[FirstBase(fs, from)].base && InReach(fs, FirstBase(fs, from));
    }
  }
}
