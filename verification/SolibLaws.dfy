/** What lazy loading guarantees, for one thread and for all of them. */
module SolibLaws {
  import opened Sequences
  import opened CoreImages
  import opened SolibLoading

  predicate NoDuplicates(xs: seq<string>) {
    forall i, j :: 0 <= i < j < |xs| ==> xs[i] != xs[j]
  }

  predicate IsLoaded(core: Core, loaded: seq<string>, f: Frame) {
    LibraryOf(core, f).Some? && LibraryOf(core, f).value in loaded
  }

  /** A library not met before is put at the end. */
  function WithLibrary(loaded: seq<string>, library: Option<string>): seq<string> {
    if library.None? || library.value in loaded then loaded else loaded + [library.value]
  }

  /** The libraries of the first n frames, each at its first appearance, behind those loaded before. */
  function InOrder(core: Core, loaded: seq<string>, frames: seq<Frame>, n: nat): seq<string>
    requires n <= |frames|
  {
    if n == 0 then loaded else WithLibrary(InOrder(core, loaded, frames, n - 1), LibraryOf(core, frames[n - 1]))
  }

  lemma VisitLoads(core: Core, loaded: seq<string>, f: Frame, i: nat)
    ensures var l := Visit(core, loaded, f, i);
            && (l.error.None? ==> IsLoaded(core, l.loaded, f) && l.loaded == WithLibrary(loaded, LibraryOf(core, f)))
            && (l.error.Some? ==> l.loaded == loaded && !IsLoaded(core, loaded, f))
            && loaded <= l.loaded
            && (NoDuplicates(loaded) ==> NoDuplicates(l.loaded))
  {
  }

  lemma StaysLoaded(core: Core, loaded: seq<string>, loaded': seq<string>, f: Frame)
    requires loaded <= loaded' && IsLoaded(core, loaded, f)
    ensures IsLoaded(core, loaded', f)
  {
  }

  lemma {:induction false} VisitFirstLoads(core: Core, loaded: seq<string>, frames: seq<Frame>, n: nat)
    requires n <= |frames|
    ensures var l := VisitFirst(core, loaded, frames, n);
            && loaded <= l.loaded
            && (NoDuplicates(loaded) ==> NoDuplicates(l.loaded))
            && (l.error.None? ==>
                  && l.loaded == InOrder(core, loaded, frames, n)
                  && forall k :: 0 <= k < n ==> IsLoaded(core, l.loaded, frames[k]))
  {
    if n > 0 {
      VisitFirstLoads(core, loaded, frames, n - 1);
      var l := VisitFirst(core, loaded, frames, n - 1);
      if l.error.None? {
        VisitLoads(core, l.loaded, frames[n - 1], n - 1);
        var m := Visit(core, l.loaded, frames[n - 1], n - 1);
        forall k | 0 <= k < n - 1
          ensures IsLoaded(core, m.loaded, frames[k])
        {
          StaysLoaded(core, l.loaded, m.loaded, frames[k]);
        }
      }
    }
  }

  /** All threads of the core, until one fails. */
  function LoadThreads(core: Core, loaded: seq<string>, threads: seq<seq<Frame>>): Loading {
    if threads == [] then Loading(loaded, None)
    else
      var l := LoadThreads(core, loaded, threads[..|threads| - 1]);
      if l.error.Some? then l else LoadThread(core, l.loaded, threads[|threads| - 1])
  }

  /** The frame's own library is loaded, or, if gdb names none, the file of the first image that covers it. */
  predicate HasLibrary(core: Core, loaded: seq<string>, f: Frame) {
    if f.solib != "" then f.solib in loaded
    else
      var image := FindImage(core.images, f.pc);
      image.Some? && image.value.file in loaded
  }

  lemma LoadedExactly(core: Core, loaded: seq<string>, f: Frame)
    ensures IsLoaded(core, loaded, f) <==> HasLibrary(core, loaded, f)
  {
  }

  /** Over any number of threads the list stays free of duplicates, is only added to, and on success holds the library
      of every frame of every thread. */
  lemma {:induction false} EveryFrameIsLoaded(core: Core, loaded: seq<string>, threads: seq<seq<Frame>>)
    requires NoDuplicates(loaded)
    ensures var l := LoadThreads(core, loaded, threads);
            && loaded <= l.loaded && NoDuplicates(l.loaded)
            && (l.error.None? ==>
                  forall t, k :: 0 <= t < |threads| && 0 <= k < |threads[t]| ==>
                    HasLibrary(core, l.loaded, threads[t][k]))
  {
    if threads != [] {
      var front, last := threads[..|threads| - 1], threads[|threads| - 1];
      EveryFrameIsLoaded(core, loaded, front);
      var l := LoadThreads(core, loaded, front);
      if l.error.None? && last != [] {
        VisitFirstLoads(core, l.loaded, last, |last|);
        var m := LoadThread(core, l.loaded, last);
        forall t, k | m.error.None? && 0 <= t < |threads| && 0 <= k < |threads[t]|
          ensures HasLibrary(core, m.loaded, threads[t][k])
        {
          if t < |front| {
            LoadedExactly(core, l.loaded, front[t][k]);
            StaysLoaded(core, l.loaded, m.loaded, front[t][k]);
          }
          LoadedExactly(core, m.loaded, threads[t][k]);
        }
      }
    }
  }

  /** A frame that can be dealt with, given what is loaded. */
  predicate Loadable(core: Core, loaded: seq<string>, f: Frame) {
    || IsLoaded(core, loaded, f)
    || (var image := FindImage(core.images, f.pc);
        image.Some? && core.loads(LibraryOf(core, f).value, image.value))
  }

  lemma VisitSucceeds(core: Core, loaded: seq<string>, f: Frame, i: nat)
    ensures Visit(core, loaded, f, i).error.None? <==> Loadable(core, loaded, f)
  {
  }

  /** Each of the first n frames can be dealt with after the ones above it. */
  predicate AllLoadable(core: Core, loaded: seq<string>, frames: seq<Frame>, n: nat)
    requires n <= |frames|
  {
    n == 0
    || (AllLoadable(core, loaded, frames, n - 1)
        && Loadable(core, InOrder(core, loaded, frames, n - 1), frames[n - 1]))
  }

  lemma LastFrameDecides(core: Core, loaded: seq<string>, frames: seq<Frame>, n: nat)
    requires 0 < n <= |frames| && VisitFirst(core, loaded, frames, n - 1).error.None?
    ensures VisitFirst(core, loaded, frames, n).error.None?
       <==> Loadable(core, InOrder(core, loaded, frames, n - 1), frames[n - 1])
  {
    VisitFirstLoads(core, loaded, frames, n - 1);
    VisitSucceeds(core, VisitFirst(core, loaded, frames, n - 1).loaded, frames[n - 1], n - 1);
  }

  /** Loading a thread succeeds exactly when each frame's library is loaded already, was met higher up, or can be loaded
      from an image that covers the frame. */
  lemma {:induction false} SucceedsExactlyWhen(core: Core, loaded: seq<string>, frames: seq<Frame>, n: nat)
    requires n <= |frames|
    ensures VisitFirst(core, loaded, frames, n).error.None? <==> AllLoadable(core, loaded, frames, n)
  {
    if n > 0 {
      SucceedsExactlyWhen(core, loaded, frames, n - 1);
      if VisitFirst(core, loaded, frames, n - 1).error.None? {
        LastFrameDecides(core, loaded, frames, n);
      }
    }
  }

  /** Why a frame cannot be dealt with. */
  function FailureOf(core: Core, f: Frame, k: nat): Error {
    if FindImage(core.images, f.pc).Some? then UnexpectedMapping(k)
    else if f.solib == "" then NoSolibAndNoImage(k) else NoImage(k)
  }

  lemma VisitFails(core: Core, loaded: seq<string>, f: Frame, i: nat)
    ensures var l := Visit(core, loaded, f, i);
            l.error.Some? ==> l.error.value == FailureOf(core, f, i) && l.loaded == loaded
  {
  }

  /** When loading fails, it is at the first frame that cannot be dealt with, for that frame's reason, and with what the
      frames above it have loaded. */
  lemma {:induction false} FailsAtFirst(core: Core, loaded: seq<string>, frames: seq<Frame>, n: nat)
    requires n <= |frames| && VisitFirst(core, loaded, frames, n).error.Some?
    ensures exists k ::
              && 0 <= k < n && AllLoadable(core, loaded, frames, k) && !AllLoadable(core, loaded, frames, k + 1)
              && VisitFirst(core, loaded, frames, n)
                 == Loading(InOrder(core, loaded, frames, k), Some(FailureOf(core, frames[k], k)))
  {
    SucceedsExactlyWhen(core, loaded, frames, n);
    SucceedsExactlyWhen(core, loaded, frames, n - 1);
    if VisitFirst(core, loaded, frames, n - 1).error.Some? {
      FailsAtFirst(core, loaded, frames, n - 1);
    } else {
      VisitFirstLoads(core, loaded, frames, n - 1);
      VisitFails(core, InOrder(core, loaded, frames, n - 1), frames[n - 1], n - 1);
      assert AllLoadable(core, loaded, frames, n - 1) && !AllLoadable(core, loaded, frames, n - 1 + 1);
    }
  }

  /** A thread without frames is the one failure that no frame is to blame for. */
  lemma NoStackExactly(core: Core, loaded: seq<string>, frames: seq<Frame>)
    ensures LoadThread(core, loaded, frames) == Loading(loaded, Some(NoStack)) <==> frames == []
  {
    if frames != [] && VisitFirst(core, loaded, frames, |frames|).error.Some? {
      FailsAtFirst(core, loaded, frames, |frames|);
    }
  }
}
