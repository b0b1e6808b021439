/** The gdb preamble's images: mapped files of the core as address intervals. */
module CoreImages {
  import opened Sequences

  /** A mapped region, end excluded. */
  datatype Region = Region(start: int, end: int)

  datatype MappedFile = MappedFile(filename: string, buildId: Option<string>, regions: seq<Region>)

  datatype Image = Image(file: string, buildId: string, start: int, length: int)
  {
    predicate Covers(pc: int) {
      start <= pc < start + length
    }
  }

  datatype Hull = Hull(start: Option<int>, end: Option<int>)

  /** GDBCoreImage's loop over the regions: lowest start and highest end. */
  method RegionHull(regions: seq<Region>) returns (start: Option<int>, end: Option<int>)
    ensures start.None? <==> regions == []
    ensures end.None? <==> regions == []
    ensures start.Some? ==> exists r :: r in regions && r.start == start.value
    ensures end.Some? ==> exists r :: r in regions && r.end == end.value
    ensures forall r :: r in regions ==> start.value <= r.start && r.end <= end.value
    ensures Hull(start, end) == HullOf(regions)
  {
    start, end := None, None;
    for i := 0 to |regions|
      invariant Hull(start, end) == HullOf(regions[..i])
    {
      assert regions[..i + 1][..i] == regions[..i];
      if start.None? || regions[i].start < start.value {
        start := Some(regions[i].start);
      }
      if end.None? || regions[i].end > end.value {
        end := Some(regions[i].end);
      }
    }
    assert regions[..|regions|] == regions;
    if regions != [] {
      HullIsTight(regions);
    }
  }

  function HullOf(regions: seq<Region>): (h: Hull)
    ensures h.start.None? <==> regions == []
    ensures h.end.None? <==> regions == []
  {
    if regions == [] then Hull(None, None)
    else
      var h, r := HullOf(regions[..|regions| - 1]), regions[|regions| - 1];
      Hull(if h.start.None? || r.start < h.start.value then Some(r.start) else h.start,
           if h.end.None? || r.end > h.end.value then Some(r.end) else h.end)
  }

  lemma {:induction false} HullIsTight(regions: seq<Region>)
    requires regions != []
    ensures exists r :: r in regions && r.start == HullOf(regions).start.value
    ensures exists r :: r in regions && r.end == HullOf(regions).end.value
    ensures forall r :: r in regions ==> HullOf(regions).start.value <= r.start && r.end <= HullOf(regions).end.value
  {
    var front, last := regions[..|regions| - 1], regions[|regions| - 1];
    assert regions == front + [last];
    if front != [] {
      HullIsTight(front);
      var r :| r in front && r.start == HullOf(front).start.value;
      assert r in regions;
      var q :| q in front && q.end == HullOf(front).end.value;
      assert q in regions;
    }
    assert last in regions;
  }

  /** The image of a mapped file; files without a build id or without regions have none. */
  function ImageOf(f: MappedFile): Option<Image> {
    var h := HullOf(f.regions);
    if f.buildId.None? || h.start.None? then None
    else Some(Image(f.filename, f.buildId.value, h.start.value, h.end.value - h.start.value))
  }

  /** resolve_modules_gdb keeps the valid images, in order. */
  function ImagesOf(files: seq<MappedFile>): (images: seq<Image>)
    ensures forall f :: f in files && ImageOf(f).Some? ==> ImageOf(f).value in images
  {
    if files == [] then []
    else
      var images := ImagesOf(files[..|files| - 1]);
      var last := ImageOf(files[|files| - 1]);
      assert files == files[..|files| - 1] + [files[|files| - 1]];
      if last.Some? then images + [last.value] else images
  }

  /** The first image whose interval holds pc. */
  function FindImage(images: seq<Image>, pc: int): (r: Option<Image>)
    ensures r.Some? ==> r.value in images && r.value.Covers(pc)
    ensures r.None? ==> forall image :: image in images ==> !image.Covers(pc)
  {
    if images == [] then None
    else if images[0].Covers(pc) then Some(images[0])
    else FindImage(images[1..], pc)
  }

  ghost predicate Disjoint(images: seq<Image>) {
    forall a, b, pc: int :: a in images && b in images && a.Covers(pc) && b.Covers(pc) ==> a == b
  }

  /** A program counter in a recorded region is found, in the right image when the hulls are disjoint. */
  lemma RegionIsFound(files: seq<MappedFile>, f: MappedFile, r: Region, pc: int)
    requires f in files && f.buildId.Some? && r in f.regions && r.start <= pc < r.end
    ensures FindImage(ImagesOf(files), pc).Some?
    ensures FindImage(ImagesOf(files), pc).value.Covers(pc)
    ensures Disjoint(ImagesOf(files)) ==> FindImage(ImagesOf(files), pc) == ImageOf(f)
  {
    HullIsTight(f.regions);
    assert ImageOf(f).value.Covers(pc);
  }

  /** A file with a build id, and a region that starts at or below pc and another that ends above it. */
  ghost predicate Spans(f: MappedFile, pc: int) {
    f.buildId.Some? && exists r, q :: r in f.regions && q in f.regions && r.start <= pc < q.end
  }

  lemma ImageExactly(f: MappedFile, pc: int)
    ensures ImageOf(f).Some? <==> f.buildId.Some? && f.regions != []
    ensures ImageOf(f).Some? ==> ImageOf(f).value.file == f.filename && Some(ImageOf(f).value.buildId) == f.buildId
    ensures ImageOf(f).Some? && ImageOf(f).value.Covers(pc) <==> Spans(f, pc)
  {
    if f.regions != [] {
      HullIsTight(f.regions);
    }
  }

  lemma {:induction false} FindFirst(images: seq<Image>, more: Option<Image>, pc: int)
    ensures FindImage(images + (if more.Some? then [more.value] else []), pc)
         == if FindImage(images, pc).Some? then FindImage(images, pc)
            else if more.Some? && more.value.Covers(pc) then more else None
  {
    var tail := if more.Some? then [more.value] else [];
    if images == [] {
      assert images + tail == tail;
    } else {
      assert (images + tail)[0] == images[0] && (images + tail)[1..] == images[1..] + tail;
      FindFirst(images[1..], more, pc);
    }
  }

  /** The image found for a program counter is that of the first mapped file that spans it, and none if no file does. */
  lemma {:induction false} PcIsResolved(files: seq<MappedFile>, pc: int) returns (k: nat)
    ensures k <= |files| && (forall i :: 0 <= i < k ==> !Spans(files[i], pc))
    ensures k < |files| ==> Spans(files[k], pc)
    ensures FindImage(ImagesOf(files), pc).Some? <==> k < |files|
    ensures k < |files| ==>
              var image := FindImage(ImagesOf(files), pc).value;
              image.file == files[k].filename && Some(image.buildId) == files[k].buildId
  {
    if files == [] {
      k := 0;
    } else {
      var front, last := files[..|files| - 1], files[|files| - 1];
      k := PcIsResolved(front, pc);
      FindFirst(ImagesOf(front), ImageOf(last), pc);
      ImageExactly(last, pc);
      assert ImagesOf(files) == ImagesOf(front) + (if ImageOf(last).Some? then [ImageOf(last).value] else []);
      if k == |front| && !Spans(last, pc) {
        k := |files|;
      }
    }
  }
}
