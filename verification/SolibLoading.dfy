/** SentryTrace.load_solib: shared libraries loaded lazily along a thread's frames. */
module SolibLoading {
  import opened Sequences
  import opened CoreImages

  /** A frame: its program counter and what gdb names as its library, "" for none. */
  datatype Frame = Frame(pc: int, solib: string)

  datatype Error = NoStack | NoSolibAndNoImage(frame: nat) | NoImage(frame: nat) | UnexpectedMapping(frame: nat)

  /** What load_solib asks its surroundings: the images, and whether a load ends in the right object file. */
  datatype Core = Core(images: seq<Image>, loads: (string, Image) -> bool)

  function LibraryOf(core: Core, f: Frame): Option<string> {
    if f.solib != "" then Some(f.solib)
    else
      var image := FindImage(core.images, f.pc);
      if image.Some? then Some(image.value.file) else None
  }

  datatype Loading = Loading(loaded: seq<string>, error: Option<Error>)

  /** One turn of the loop, for frame number i. */
  function Visit(core: Core, loaded: seq<string>, f: Frame, i: nat): Loading {
    if f.solib != "" && f.solib in loaded then Loading(loaded, None)
    else
      var image := FindImage(core.images, f.pc);
      if image.None? then Loading(loaded, Some(if f.solib == "" then NoSolibAndNoImage(i) else NoImage(i)))
      else
        var solib := if f.solib != "" then f.solib else image.value.file;
        if solib in loaded then Loading(loaded, None)
        else if !core.loads(solib, image.value) then Loading(loaded, Some(UnexpectedMapping(i)))
        else Loading(loaded + [solib], None)
  }

  /** The first n frames, one after the other, up to the first error. */
  function VisitFirst(core: Core, loaded: seq<string>, frames: seq<Frame>, n: nat): Loading
    requires n <= |frames|
  {
    if n == 0 then Loading(loaded, None)
    else
      var l := VisitFirst(core, loaded, frames, n - 1);
      if l.error.Some? then l else Visit(core, l.loaded, frames[n - 1], n - 1)
  }

  lemma {:induction false} ErrorStays(core: Core, loaded: seq<string>, frames: seq<Frame>, n: nat, m: nat)
    requires n <= m <= |frames| && VisitFirst(core, loaded, frames, n).error.Some?
    ensures VisitFirst(core, loaded, frames, m) == VisitFirst(core, loaded, frames, n)
  {
    if n < m {
      ErrorStays(core, loaded, frames, n, m - 1);
    }
  }

  function LoadThread(core: Core, loaded: seq<string>, frames: seq<Frame>): Loading {
    if frames == [] then Loading(loaded, Some(NoStack)) else VisitFirst(core, loaded, frames, |frames|)
  }

  class SentryTrace {
    var loaded_solibs: seq<string> // shared by all threads' traces

    constructor ()
      ensures loaded_solibs == []
    {
      loaded_solibs := [];
    }

    method LoadSolib(core: Core, frames: seq<Frame>) returns (error: Option<Error>)
      modifies this
      ensures Loading(loaded_solibs, error) == LoadThread(core, old(loaded_solibs), frames)
    {
      if frames == [] {
        return Some(NoStack);
      }
      var i := -1;
      while true
        invariant -1 <= i < |frames|
        invariant Loading(loaded_solibs, None) == VisitFirst(core, old(loaded_solibs), frames, i + 1)
        decreases |frames| - i
      {
        if i >= 0 {
          if i + 1 == |frames| {
            break;
          }
        }
        i := i + 1;
        var frame := frames[i];
        var solib := frame.solib;
        if solib != "" && solib in loaded_solibs {
          continue;
        }
        var image := FindImage(core.images, frame.pc);
        if solib == "" && image.None? {
          error := Some(NoSolibAndNoImage(i));
          ErrorStays(core, old(loaded_solibs), frames, i + 1, |frames|);
          return;
        }
        if image.None? {
          error := Some(NoImage(i));
          ErrorStays(core, old(loaded_solibs), frames, i + 1, |frames|);
          return;
        }
        if solib == "" {
          solib := image.value.file;
        }
        if solib in loaded_solibs {
          continue;
        }
        if !core.loads(solib, image.value) {
          error := Some(UnexpectedMapping(i));
          ErrorStays(core, old(loaded_solibs), frames, i + 1, |frames|);
          return;
        }
        loaded_solibs := loaded_solibs + [solib];
      }
      error := None;
    }
  }
}
