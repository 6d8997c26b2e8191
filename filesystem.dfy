/**
 * The disk as the pipeline sees it: a snapshot of directory listings and
 * file contents taken before the run, `path.join`, the `.svg` filter shared
 * by every reader, and the files written, in the order they are written.
 */
module FileSystem {
  import opened Wrappers

  /** `dirs` maps a directory to its listing; a directory missing from it is
      one whose `readdir` throws. `files` maps a file to its text; a file
      missing from it is one whose `readFile` throws. */
  datatype Snapshot = Snapshot(dirs: map<string, seq<string>>, files: map<string, string>)

  /** What can abort a step: a listing or a read that throws, markup the
      parser refuses, or `path.join` given `undefined` (a flag without value). */
  datatype Error =
    | ListingFailed(path: string)
    | ReadFailed(path: string)
    | MalformedSvg(path: string)
    | PathUndefined

  /** `readdir(path)`. */
  function ListDir(fs: Snapshot, path: string): (r: Result<seq<string>, Error>)
    ensures r.Success? <==> path in fs.dirs
    ensures r.Success? ==> r.value == fs.dirs[path]
    ensures r.Failure? ==> r.error == ListingFailed(path)
  {
    if path in fs.dirs then Success(fs.dirs[path]) else Failure(ListingFailed(path))
  }

  /** `readFile(path, 'utf-8')`. */
  function ReadFile(fs: Snapshot, path: string): (r: Result<string, Error>)
    ensures r.Success? <==> path in fs.files
    ensures r.Success? ==> r.value == fs.files[path]
    ensures r.Failure? ==> r.error == ReadFailed(path)
  {
    if path in fs.files then Success(fs.files[path]) else Failure(ReadFailed(path))
  }

  /** `path.join(dir, name)` on already normal paths. */
  function Join(dir: string, name: string): string {
    dir + "/" + name
  }

  lemma JoinInjective(dir: string, a: string, b: string)
    requires Join(dir, a) == Join(dir, b)
    ensures a == b
  {
    assert a == Join(dir, a)[|dir| + 1..];
  }

  /** `name.endsWith('.svg')`. */
  predicate IsSvgFile(name: string) {
    |name| >= 4 && name[|name| - 4..] == ".svg"
  }

  /** `files.filter((file) => file.endsWith('.svg'))`: the `.svg` entries of a
      listing, in listing order. */
  function SvgEntries(files: seq<string>): (r: seq<string>)
    ensures |r| <= |files|
    ensures forall i :: 0 <= i < |r| ==> IsSvgFile(r[i])
    ensures forall f :: f in r <==> f in files && IsSvgFile(f)
    ensures |r| == |files| <==> forall i :: 0 <= i < |files| ==> IsSvgFile(files[i])
    ensures |r| == |files| ==> r == files
  {
    if files == [] then []
    else if IsSvgFile(files[0]) then [files[0]] + SvgEntries(files[1..])
    else SvgEntries(files[1..])
  }

  /** The filter keeps listing order: filtering a concatenation is
      concatenating the filtered parts. */
  lemma {:induction false} SvgEntriesAppend(a: seq<string>, b: seq<string>)
    ensures SvgEntries(a + b) == SvgEntries(a) + SvgEntries(b)
  {
    if a == [] {
      assert a + b == b;
    } else {
      assert (a + b)[1..] == a[1..] + b;
      SvgEntriesAppend(a[1..], b);
    }
  }

  /** One `writeFile(path, content)`. */
  datatype FileWrite = FileWrite(path: string, content: string)

  /** The files on disk after `writes`, done in order, on top of `disk`. */
  function Apply(disk: map<string, string>, writes: seq<FileWrite>): map<string, string> {
    if writes == [] then disk
    else
      var last := writes[|writes| - 1];
      Apply(disk, writes[..|writes| - 1])[last.path := last.content]
  }

  /** A path written at least once holds what the last write to it wrote. */
  lemma {:induction false} ApplyLastWins(disk: map<string, string>, writes: seq<FileWrite>, i: nat)
    requires i < |writes|
    requires forall j :: i < j < |writes| ==> writes[j].path != writes[i].path
    ensures writes[i].path in Apply(disk, writes)
    ensures Apply(disk, writes)[writes[i].path] == writes[i].content
  {
    if i < |writes| - 1 {
      ApplyLastWins(disk, writes[..|writes| - 1], i);
    }
  }

  /** A path never written keeps what it held before. */
  lemma {:induction false} ApplyUntouched(disk: map<string, string>, writes: seq<FileWrite>, p: string)
    requires forall j :: 0 <= j < |writes| ==> writes[j].path != p
    ensures p in Apply(disk, writes) <==> p in disk
    ensures p in disk ==> Apply(disk, writes)[p] == disk[p]
  {
    if writes != [] {
      ApplyUntouched(disk, writes[..|writes| - 1], p);
    }
  }
}
