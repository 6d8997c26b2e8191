/** `getSvgFiles`: the full paths of the `.svg` entries of a directory. */
module SvgFiles {
  import opened Wrappers
  import opened FileSystem
  import opened Svg
  import opened SvgDirectory

  /** `getSvgFiles(dirPath)`: each `.svg` entry joined with the directory,
      in listing order; fails when listing the directory throws. */
  function GetSvgFiles(fs: Snapshot, dirPath: string): (r: Result<seq<string>, Error>)
    ensures r.Failure? <==> dirPath !in fs.dirs
    ensures r.Failure? ==> r.error == ListingFailed(dirPath)
  {
    var files :- ListDir(fs, dirPath);
    var svgs := SvgEntries(files);
    Success(seq(|svgs|, i requires 0 <= i < |svgs| => Join(dirPath, svgs[i])))
  }

  /** Output `i` is the directory joined with the `i`-th `.svg` entry; there
      are at most as many outputs as entries, and exactly as many when every
      entry ends in `.svg`. */
  lemma GetSvgFilesSpec(fs: Snapshot, dirPath: string)
    requires dirPath in fs.dirs
    ensures var files := fs.dirs[dirPath];
            var r := GetSvgFiles(fs, dirPath).value;
            && |r| == |SvgEntries(files)| <= |files|
            && (forall i :: 0 <= i < |r| ==> r[i] == Join(dirPath, SvgEntries(files)[i]) && IsSvgFile(r[i]))
            && (|r| == |files| <==> forall i :: 0 <= i < |files| ==> IsSvgFile(files[i]))
  {
    var svgs := SvgEntries(fs.dirs[dirPath]);
    forall i | 0 <= i < |svgs|
      ensures IsSvgFile(Join(dirPath, svgs[i]))
    {
      var p := Join(dirPath, svgs[i]);
      assert p[|p| - 4..] == svgs[i][|svgs[i]| - 4..];
    }
  }

  /** `readSvgDirectory` reads exactly the paths `getSvgFiles` returns, in the
      same order. */
  lemma DirectoryReadsSvgFiles(fs: Snapshot, parse: string -> Option<SvgDocument>, dirPath: string)
    requires ReadSvgDirectory(fs, parse, dirPath).Success?
    ensures GetSvgFiles(fs, dirPath).Success?
    ensures var paths := GetSvgFiles(fs, dirPath).value;
            var svgs := ReadSvgDirectory(fs, parse, dirPath).value;
            && |svgs| == |paths|
            && forall i :: 0 <= i < |paths| ==> svgs[i] == ReadSvg(fs, parse, paths[i]).value
  {
    ReadSvgDirectorySpec(fs, parse, dirPath);
  }
}
