/**
 * `readSvgDirectory`: list a directory, keep its `.svg` entries and read each
 * one. The reads are awaited together, so one failure fails the whole batch
 * and no partial list is returned. The reads are modelled one after another,
 * in listing order.
 */
module SvgDirectory {
  import opened Wrappers
  import opened Text
  import opened FileSystem
  import opened Svg

  /** The records of the files `names` of directory `dirPath`, in order, or
      the error of the first file that cannot be read. */
  function ReadAll(fs: Snapshot, parse: string -> Option<SvgDocument>, dirPath: string, names: seq<string>):
    (r: Result<seq<SvgData>, Error>)
    ensures r.Success? <==> forall i :: 0 <= i < |names| ==> ReadSvg(fs, parse, Join(dirPath, names[i])).Success?
    ensures r.Success? ==> |r.value| == |names|
    ensures r.Success? ==> forall i :: 0 <= i < |names| ==> r.value[i] == ReadSvg(fs, parse, Join(dirPath, names[i])).value
    ensures r.Failure? ==>
              exists k :: (0 <= k < |names|
                && ReadSvg(fs, parse, Join(dirPath, names[k])) == Failure(r.error)
                && forall i :: 0 <= i < k ==> ReadSvg(fs, parse, Join(dirPath, names[i])).Success?)
  {
    if names == [] then Success([])
    else
      match ReadSvg(fs, parse, Join(dirPath, names[0]))
      case Failure(e) => Failure(e)
      case Success(first) =>
        assert forall i :: 1 <= i < |names| ==> names[1..][i - 1] == names[i];
        match ReadAll(fs, parse, dirPath, names[1..])
        case Failure(e) => Failure(e)
        case Success(rest) => Success([first] + rest)
  }

  /** `readSvgDirectory(dirPath)`. */
  function ReadSvgDirectory(fs: Snapshot, parse: string -> Option<SvgDocument>, dirPath: string):
    (r: Result<seq<SvgData>, Error>)
    ensures dirPath !in fs.dirs ==> r == Failure(ListingFailed(dirPath))
  {
    var files :- ListDir(fs, dirPath);
    ReadAll(fs, parse, dirPath, SvgEntries(files))
  }

  /** Only the `.svg` entries are read, one record per entry, in listing
      order; the read succeeds exactly when the listing and every one of those
      reads succeed. */
  lemma ReadSvgDirectorySpec(fs: Snapshot, parse: string -> Option<SvgDocument>, dirPath: string)
    requires dirPath in fs.dirs
    ensures var svgs := SvgEntries(fs.dirs[dirPath]);
            var r := ReadSvgDirectory(fs, parse, dirPath);
            && (r.Success? <==> forall i :: 0 <= i < |svgs| ==> ReadSvg(fs, parse, Join(dirPath, svgs[i])).Success?)
            && (r.Success? ==> |r.value| == |svgs|)
            && (r.Success? ==> forall i :: 0 <= i < |svgs| ==>
                  && r.value[i] == ReadSvg(fs, parse, Join(dirPath, svgs[i])).value
                  && r.value[i].content == fs.files[Join(dirPath, svgs[i])])
  {
  }

  /** A listing entry holds no `/`, so the record read from it is named after
      the entry with its first `.svg` removed. */
  lemma DirectoryNames(fs: Snapshot, parse: string -> Option<SvgDocument>, dirPath: string, i: nat)
    requires ReadSvgDirectory(fs, parse, dirPath).Success?
    requires i < |ReadSvgDirectory(fs, parse, dirPath).value|
    requires '/' !in SvgEntries(fs.dirs[dirPath])[i]
    ensures ReadSvgDirectory(fs, parse, dirPath).value[i].name == ReplaceFirst(SvgEntries(fs.dirs[dirPath])[i], ".svg", "")
  {
    LastSegmentOfJoin(dirPath, SvgEntries(fs.dirs[dirPath])[i]);
  }
}
