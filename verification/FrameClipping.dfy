/** SentryTrace.to_dict's clipping of the crash handler's frames. */
module FrameClipping {

  /** What to_dict looks at in a frame: its function's prefixes and gdb's frame type. */
  datatype Frame = Frame(address: int, isCrashHandler: bool, isSignalTrampoline: bool)

  predicate IsNoise(f: Frame) {
    f.isCrashHandler || f.isSignalTrampoline
  }

  function Reversed(fs: seq<Frame>): (r: seq<Frame>)
    ensures |r| == |fs| && forall i :: 0 <= i < |fs| ==> r[i] == fs[|fs| - 1 - i]
  {
    seq(|fs|, i requires 0 <= i < |fs| => fs[|fs| - 1 - i])
  }

  function Max(a: int, b: int): int {
    if a > b then a else b
  }

  /** Positions of the last crash handler frame and the last trampoline frame, -1 for none. */
  method LastNoise(frames: seq<Frame>) returns (kcrashIndex: int, trapIndex: int)
    ensures -1 <= kcrashIndex < |frames| && -1 <= trapIndex < |frames|
    ensures kcrashIndex >= 0 ==> frames[kcrashIndex].isCrashHandler
    ensures trapIndex >= 0 ==> frames[trapIndex].isSignalTrampoline
    ensures forall i :: kcrashIndex < i < |frames| ==> !frames[i].isCrashHandler
    ensures forall i :: trapIndex < i < |frames| ==> !frames[i].isSignalTrampoline
  {
    kcrashIndex, trapIndex := -1, -1;
    for index := 0 to |frames|
      invariant -1 <= kcrashIndex < index && -1 <= trapIndex < index
      invariant kcrashIndex >= 0 ==> frames[kcrashIndex].isCrashHandler
      invariant trapIndex >= 0 ==> frames[trapIndex].isSignalTrampoline
      invariant forall i :: kcrashIndex < i < index ==> !frames[i].isCrashHandler
      invariant forall i :: trapIndex < i < index ==> !frames[i].isSignalTrampoline
    {
      if frames[index].isCrashHandler {
        kcrashIndex := index;
      }
      if frames[index].isSignalTrampoline {
        trapIndex := index;
      }
    }
  }

  /** On the crashed thread the newest frames down to the last crash handler or trampoline frame are thrown away, and
      no more; the rest comes oldest first. The thread counts as crashed if it has a crash handler frame. */
  method ClipFrames(frames: seq<Frame>, isCrashed: bool) returns (kept: seq<Frame>, crashed: bool, ghost clip: int)
    ensures -1 <= clip < |frames| && kept == Reversed(frames[clip + 1..])
    ensures !isCrashed ==> clip == -1
    ensures isCrashed ==> forall i :: clip < i < |frames| ==> !IsNoise(frames[i])
    ensures clip >= 0 ==> IsNoise(frames[clip])
    ensures crashed <==> isCrashed || exists i :: 0 <= i < |frames| && frames[i].isCrashHandler
  {
    var kcrashIndex, trapIndex := LastNoise(frames);
    crashed := isCrashed || kcrashIndex >= 0;
    var clipIndex := Max(kcrashIndex, trapIndex);
    var rest := frames;
    clip := -1;
    if isCrashed && clipIndex > -1 {
      rest := frames[clipIndex + 1..];
      clip := clipIndex;
    }
    kept := Reversed(rest);
  }
}
