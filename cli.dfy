/**
 * The `build-icons` command: option resolution and the order of the steps
 * of `main`. The outcome of a run is the sequence of files it wrote, in
 * order, and its exit code. Writes done before a failure stay on disk.
 */
module Cli {
  import opened Wrappers
  import opened FileSystem
  import opened AllStyles
  import opened Svg
  import opened SvgDirectory
  import opened IconFiles
  import opened StyleExports
  import opened ExportsFile

  /** `args.indexOf(flag)`, None for -1. */
  function FirstIndex(args: seq<string>, flag: string): (r: Option<nat>)
    ensures r.None? <==> flag !in args
    ensures r.Some? ==> r.value < |args| && args[r.value] == flag
    ensures r.Some? ==> forall j :: 0 <= j < r.value ==> args[j] != flag
  {
    if args == [] then None
    else if args[0] == flag then Some(0)
    else match FirstIndex(args[1..], flag)
      case None => None
      case Some(i) => Some(i + 1)
  }

  /** `args[args.indexOf(flag) + 1]`: the argument after the first occurrence
      of `flag`; None (`undefined`) when there is no such argument. */
  function FlagValue(args: seq<string>, flag: string): Option<string> {
    match FirstIndex(args, flag)
    case None => None
    case Some(i) => if i + 1 < |args| then Some(args[i + 1]) else None
  }

  /** The value of a flag is the argument right after its first occurrence,
      whatever comes later. */
  lemma FlagValueFirst(before: seq<string>, flag: string, value: string, after: seq<string>)
    requires flag !in before
    ensures FlagValue(before + [flag, value] + after, flag) == Some(value)
  {
    var args := before + [flag, value] + after;
    assert args[|before|] == flag;
    var i := FirstIndex(args, flag);
    assert forall j :: 0 <= j < |before| ==> args[j] == before[j];
  }

  /** A flag in last position has no value. */
  lemma FlagValueLast(before: seq<string>, flag: string)
    requires flag !in before
    ensures FlagValue(before + [flag], flag) == None
  {
    var args := before + [flag];
    assert args[|before|] == flag;
    var i := FirstIndex(args, flag);
    assert forall j :: 0 <= j < |before| ==> args[j] == before[j];
  }

  /** `args.includes('--help') || args.includes('-h')`. */
  predicate HelpRequested(args: seq<string>) {
    "--help" in args || "-h" in args
  }

  /** The resolved options; None is a value the command line left
      `undefined`. */
  datatype Options = Options(iconsDir: Option<string>, outputDir: Option<string>, packageName: Option<string>)

  function FlagOr(args: seq<string>, flag: string, default: Option<string>): Option<string> {
    if flag in args then FlagValue(args, flag) else default
  }

  const DefaultIconsDir := "icons"
  const DefaultOutputDir := "src/icons"

  /** A flag's value when the flag is given, its default otherwise. */
  function ResolveOptions(args: seq<string>): (o: Options)
    ensures "--icons-dir" !in args ==> o.iconsDir == Some(DefaultIconsDir)
    ensures "--output" !in args ==> o.outputDir == Some(DefaultOutputDir)
    ensures "--package" !in args ==> o.packageName == None
    ensures "--icons-dir" in args ==> o.iconsDir == FlagValue(args, "--icons-dir")
    ensures "--output" in args ==> o.outputDir == FlagValue(args, "--output")
    ensures o.packageName == FlagValue(args, "--package")
  {
    Options(
      FlagOr(args, "--icons-dir", Some(DefaultIconsDir)),
      FlagOr(args, "--output", Some(DefaultOutputDir)),
      FlagOr(args, "--package", None))
  }

  /** `if (packageName)`: given and not empty. */
  predicate Generates(packageName: Option<string>) {
    packageName.Some? && packageName.value != ""
  }

  /** The files written by a run, in order, and its exit code. */
  datatype Outcome = Outcome(writes: seq<FileWrite>, exitCode: int)

  /** The per-style loop: finished with its writes, or stopped by an error
      after the writes listed. */
  datatype Progress = Completed(writes: seq<FileWrite>) | Aborted(writes: seq<FileWrite>, error: Error)

  /** The per-style loop of `main` from `dirs` on, after the writes `done`:
      for each style, its icon files, then its barrel. */
  function StyleSteps(fs: Snapshot, parse: string -> Option<SvgDocument>, pascal: string -> string,
                      done: seq<FileWrite>, dirs: seq<StyleDirectory>, outputDir: Option<string>,
                      packageName: string): Progress
    decreases |dirs|
  {
    if dirs == [] then Completed(done)
    else match outputDir
      case None => Aborted(done, PathUndefined)
      case Some(out) =>
        match IconFiles.IconFiles(fs, parse, pascal, dirs[0], out, packageName)
        case Failure(e) => Aborted(done, e)
        case Success(icons) =>
          match StyleExports.StyleExports(fs, parse, pascal, dirs[0], out)
          case Failure(e) => Aborted(done + icons, e)
          case Success(barrel) =>
            StyleSteps(fs, parse, pascal, done + icons + [barrel], dirs[1..], outputDir, packageName)
  }

  /** Both reads of a style directory see the same snapshot: once the read
      behind its icon files succeeds, the read behind its barrel does too. */
  lemma BarrelReadAfterIconRead(fs: Snapshot, parse: string -> Option<SvgDocument>, pascal: string -> string,
                                dir: StyleDirectory, outputDir: string, packageName: string)
    ensures IconFiles.IconFiles(fs, parse, pascal, dir, outputDir, packageName).Success?
            ==> StyleExports.StyleExports(fs, parse, pascal, dir, outputDir).Success?
  {
  }

  /** A run of `build-icons` with arguments `args` against the snapshot `fs`. */
  function Pipeline(fs: Snapshot, parse: string -> Option<SvgDocument>, pascal: string -> string,
                    args: seq<string>): (o: Outcome)
    ensures o.exitCode == 0 || o.exitCode == 1
    ensures HelpRequested(args) ==> o == Outcome([], 0)
    ensures !HelpRequested(args) && ResolveOptions(args).iconsDir.None? ==> o == Outcome([], 1)
    ensures (!HelpRequested(args) && ResolveOptions(args).iconsDir.Some? && !Generates(ResolveOptions(args).packageName))
              ==> o == Outcome([], 0)
    ensures !HelpRequested(args) && ResolveOptions(args).outputDir.None? ==> o.writes == []
    ensures (!HelpRequested(args) && ResolveOptions(args).iconsDir.Some? && Generates(ResolveOptions(args).packageName)
             && ResolveOptions(args).outputDir.None?)
              ==> o == Outcome([], 1)
  {
    if HelpRequested(args) then Outcome([], 0)
    else
      var opts := ResolveOptions(args);
      match opts.iconsDir
      case None => Outcome([], 1)
      case Some(iconsDir) =>
        var dirs := AllStyles.AllStyles(fs, iconsDir);
        if !Generates(opts.packageName) then Outcome([], 0)
        else Finish(StyleSteps(fs, parse, pascal, [], dirs, opts.outputDir, opts.packageName.value), dirs, opts.outputDir)
  }

  /** The end of a run with a package: an error exits with 1; after a
      completed loop, the top-level barrel is written and the run exits
      with 0. */
  function Finish(progress: Progress, dirs: seq<StyleDirectory>, outputDir: Option<string>): Outcome {
    match progress
    case Aborted(ws, _) => Outcome(ws, 1)
    case Completed(ws) =>
      match outputDir
      case None => Outcome(ws, 1)
      case Some(out) => Outcome(ws + [ExportsFile.ExportsFile(dirs, out)], 0)
  }

  /** A run with a package whose icons directory is defined: the per-style
      loop over the scan, then its end. */
  lemma PipelineGenerates(fs: Snapshot, parse: string -> Option<SvgDocument>, pascal: string -> string,
                          args: seq<string>, iconsDir: string)
    requires !HelpRequested(args)
    requires ResolveOptions(args).iconsDir == Some(iconsDir)
    requires Generates(ResolveOptions(args).packageName)
    ensures var opts := ResolveOptions(args);
            var dirs := AllStyles.AllStyles(fs, iconsDir);
            Pipeline(fs, parse, pascal, args)
            == Finish(StyleSteps(fs, parse, pascal, [], dirs, opts.outputDir, opts.packageName.value), dirs, opts.outputDir)
  {
  }

  /** `main`: scan, then, when a package is given, the per-style loop and
      the top-level barrel; the first error ends the run with exit code 1. */
  method Run(fs: Snapshot, parse: string -> Option<SvgDocument>, pascal: string -> string, args: seq<string>)
    returns (o: Outcome)
    ensures o == Pipeline(fs, parse, pascal, args)
  {
    if "--help" in args || "-h" in args {
      return Outcome([], 0);
    }
    var opts := ResolveOptions(args);
    if opts.iconsDir.None? {
      return Outcome([], 1);
    }
    var dirs := ReadAllStyles(fs, opts.iconsDir.value);
    if !Generates(opts.packageName) {
      return Outcome([], 0);
    }
    var packageName := opts.packageName.value;
    var writes: seq<FileWrite> := [];
    for i := 0 to |dirs|
      invariant StyleSteps(fs, parse, pascal, [], dirs, opts.outputDir, packageName)
                == StyleSteps(fs, parse, pascal, writes, dirs[i..], opts.outputDir, packageName)
    {
      assert dirs[i..][1..] == dirs[i + 1..];
      if opts.outputDir.None? {
        return Outcome(writes, 1);
      }
      var icons := GenerateIconFiles(fs, parse, pascal, dirs[i], opts.outputDir.value, packageName);
      if icons.Failure? {
        return Outcome(writes, 1);
      }
      writes := writes + icons.value;
      var barrel := StyleExports.StyleExports(fs, parse, pascal, dirs[i], opts.outputDir.value);
      if barrel.Failure? {
        return Outcome(writes, 1);
      }
      writes := writes + [barrel.value];
    }
    if opts.outputDir.None? {
      return Outcome(writes, 1);
    }
    writes := writes + [ExportsFile.ExportsFile(dirs, opts.outputDir.value)];
    return Outcome(writes, 0);
  }

  /** What one style contributes when its directory reads: its icon files,
      then its barrel. */
  function StyleWrites(fs: Snapshot, parse: string -> Option<SvgDocument>, pascal: string -> string,
                       dir: StyleDirectory, out: string, packageName: string): seq<FileWrite>
  {
    match (IconFiles.IconFiles(fs, parse, pascal, dir, out, packageName), StyleExports.StyleExports(fs, parse, pascal, dir, out))
    case (Success(icons), Success(barrel)) => icons + [barrel]
    case _ => []
  }

  /** The writes of the styles `dirs`, style after style. */
  function Planned(fs: Snapshot, parse: string -> Option<SvgDocument>, pascal: string -> string,
                   dirs: seq<StyleDirectory>, out: string, packageName: string): seq<FileWrite>
  {
    if dirs == [] then []
    else StyleWrites(fs, parse, pascal, dirs[0], out, packageName) + Planned(fs, parse, pascal, dirs[1..], out, packageName)
  }

  predicate Reads(fs: Snapshot, parse: string -> Option<SvgDocument>, dir: StyleDirectory) {
    ReadSvgDirectory(fs, parse, dir.path).Success?
  }

  /** One style whose directory reads: its writes, then the rest. */
  lemma StyleStepsStep(fs: Snapshot, parse: string -> Option<SvgDocument>, pascal: string -> string,
                       done: seq<FileWrite>, dirs: seq<StyleDirectory>, out: string, packageName: string)
    requires dirs != [] && Reads(fs, parse, dirs[0])
    ensures StyleSteps(fs, parse, pascal, done, dirs, Some(out), packageName)
            == StyleSteps(fs, parse, pascal, done + StyleWrites(fs, parse, pascal, dirs[0], out, packageName),
                          dirs[1..], Some(out), packageName)
  {
    var icons := IconFiles.IconFiles(fs, parse, pascal, dirs[0], out, packageName);
    var barrel := StyleExports.StyleExports(fs, parse, pascal, dirs[0], out);
    assert icons.Success? && barrel.Success?;
    assert StyleWrites(fs, parse, pascal, dirs[0], out, packageName) == icons.value + [barrel.value];
    Associative(done, icons.value, [barrel.value]);
  }

  /** One style whose directory does not read: the loop stops there. */
  lemma StyleStepsStop(fs: Snapshot, parse: string -> Option<SvgDocument>, pascal: string -> string,
                       done: seq<FileWrite>, dirs: seq<StyleDirectory>, out: string, packageName: string)
    requires dirs != [] && !Reads(fs, parse, dirs[0])
    ensures StyleSteps(fs, parse, pascal, done, dirs, Some(out), packageName)
            == Aborted(done, ReadSvgDirectory(fs, parse, dirs[0].path).error)
  {
  }

  /** When every style directory reads, the loop completes with the writes of
      every style, in the order of `dirs`. */
  lemma {:induction false} StyleStepsComplete(fs: Snapshot, parse: string -> Option<SvgDocument>, pascal: string -> string,
                                              done: seq<FileWrite>, dirs: seq<StyleDirectory>, out: string, packageName: string)
    decreases |dirs|
    requires forall i :: 0 <= i < |dirs| ==> Reads(fs, parse, dirs[i])
    ensures StyleSteps(fs, parse, pascal, done, dirs, Some(out), packageName)
            == Completed(done + Planned(fs, parse, pascal, dirs, out, packageName))
  {
    if dirs != [] {
      var first := StyleWrites(fs, parse, pascal, dirs[0], out, packageName);
      var rest := Planned(fs, parse, pascal, dirs[1..], out, packageName);
      assert Reads(fs, parse, dirs[0]);
      StyleStepsStep(fs, parse, pascal, done, dirs, out, packageName);
      StyleStepsComplete(fs, parse, pascal, done + first, dirs[1..], out, packageName);
      Associative(done, first, rest);
    }
  }

  /** When the first style directory that fails to read is `dirs[k]`, the
      loop stops there with the error of that read, after the writes of the
      styles before it; nothing of `dirs[k]` is written. */
  lemma StyleStepsAbort(fs: Snapshot, parse: string -> Option<SvgDocument>, pascal: string -> string,
                        done: seq<FileWrite>, dirs: seq<StyleDirectory>, out: string, packageName: string, k: nat)
    requires k < |dirs| && !Reads(fs, parse, dirs[k])
    requires forall i :: 0 <= i < k ==> Reads(fs, parse, dirs[i])
    ensures StyleSteps(fs, parse, pascal, done, dirs, Some(out), packageName)
            == Aborted(done + Planned(fs, parse, pascal, dirs[..k], out, packageName),
                       ReadSvgDirectory(fs, parse, dirs[k].path).error)
  {
    StyleStepsAbortFrom(fs, parse, pascal, done, dirs, out, packageName, 0, k);
    assert dirs[0..] == dirs;
    assert dirs[0..k] == dirs[..k];
  }

  /** The same, for the loop resumed at style `j`. */
  lemma {:induction false} StyleStepsAbortFrom(fs: Snapshot, parse: string -> Option<SvgDocument>, pascal: string -> string,
                                               done: seq<FileWrite>, dirs: seq<StyleDirectory>, out: string, packageName: string,
                                               j: nat, k: nat)
    requires j <= k < |dirs| && !Reads(fs, parse, dirs[k])
    requires forall i :: j <= i < k ==> Reads(fs, parse, dirs[i])
    decreases k - j
    ensures StyleSteps(fs, parse, pascal, done, dirs[j..], Some(out), packageName)
            == Aborted(done + Planned(fs, parse, pascal, dirs[j..k], out, packageName),
                       ReadSvgDirectory(fs, parse, dirs[k].path).error)
  {
    var err := ReadSvgDirectory(fs, parse, dirs[k].path).error;
    if j == k {
      SliceShift(dirs, j);
      StyleStepsStop(fs, parse, pascal, done, dirs[j..], out, packageName);
      AppendNone(done, Planned(fs, parse, pascal, dirs[j..k], out, packageName));
    } else {
      var first := StyleWrites(fs, parse, pascal, dirs[j], out, packageName);
      StyleStepsAbortFrom(fs, parse, pascal, done + first, dirs, out, packageName, j + 1, k);
      AbortFromStep(fs, parse, pascal, done, dirs, out, packageName, j, k, err);
    }
  }

  /** One style of `StyleStepsAbortFrom`: style `j` reads, and the loop
      resumed after it stops at `k`. */
  lemma AbortFromStep(fs: Snapshot, parse: string -> Option<SvgDocument>, pascal: string -> string,
                      done: seq<FileWrite>, dirs: seq<StyleDirectory>, out: string, packageName: string,
                      j: nat, k: nat, err: Error)
    requires j < k <= |dirs| && Reads(fs, parse, dirs[j])
    requires var first := StyleWrites(fs, parse, pascal, dirs[j], out, packageName);
             StyleSteps(fs, parse, pascal, done + first, dirs[j + 1..], Some(out), packageName)
             == Aborted(done + first + Planned(fs, parse, pascal, dirs[j + 1..k], out, packageName), err)
    ensures StyleSteps(fs, parse, pascal, done, dirs[j..], Some(out), packageName)
            == Aborted(done + Planned(fs, parse, pascal, dirs[j..k], out, packageName), err)
  {
    var first := StyleWrites(fs, parse, pascal, dirs[j], out, packageName);
    var rest := Planned(fs, parse, pascal, dirs[j + 1..k], out, packageName);
    SliceShift(dirs, j);
    StyleStepsStep(fs, parse, pascal, done, dirs[j..], out, packageName);
    PlannedFrom(fs, parse, pascal, dirs, out, packageName, j, k);
    Associative(done, first, rest);
  }

  lemma SliceShift<T>(s: seq<T>, j: nat)
    requires j < |s|
    ensures s[j..][0] == s[j] && s[j..][1..] == s[j + 1..]
  {
  }

  lemma AppendNone<T>(a: seq<T>, b: seq<T>)
    requires b == []
    ensures a + b == a
  {
  }

  lemma Associative<T>(a: seq<T>, b: seq<T>, c: seq<T>)
    ensures a + b + c == a + (b + c)
  {
  }

  /** The planned writes of `dirs[j..k]` begin with those of `dirs[j]`. */
  lemma PlannedFrom(fs: Snapshot, parse: string -> Option<SvgDocument>, pascal: string -> string,
                    dirs: seq<StyleDirectory>, out: string, packageName: string, j: nat, k: nat)
    requires j < k <= |dirs|
    ensures Planned(fs, parse, pascal, dirs[j..k], out, packageName)
            == StyleWrites(fs, parse, pascal, dirs[j], out, packageName)
               + Planned(fs, parse, pascal, dirs[j + 1..k], out, packageName)
  {
    assert dirs[j..k][0] == dirs[j];
    assert dirs[j..k][1..] == dirs[j + 1..k];
  }

  /** A run with a package whose scanned style directories all read: for each
      scanned style in scan order, its icon files and then its barrel, and the
      top-level barrel last; exit code 0. */
  lemma PipelineCompletes(fs: Snapshot, parse: string -> Option<SvgDocument>, pascal: string -> string,
                          args: seq<string>, iconsDir: string, out: string)
    requires !HelpRequested(args)
    requires ResolveOptions(args).iconsDir == Some(iconsDir) && ResolveOptions(args).outputDir == Some(out)
    requires Generates(ResolveOptions(args).packageName)
    requires forall i :: 0 <= i < |AllStyles.AllStyles(fs, iconsDir)| ==> Reads(fs, parse, AllStyles.AllStyles(fs, iconsDir)[i])
    ensures var dirs := AllStyles.AllStyles(fs, iconsDir);
            Pipeline(fs, parse, pascal, args)
            == Outcome(Planned(fs, parse, pascal, dirs, out, ResolveOptions(args).packageName.value)
                       + [ExportsFile.ExportsFile(dirs, out)], 0)
  {
    var dirs := AllStyles.AllStyles(fs, iconsDir);
    var packageName := ResolveOptions(args).packageName.value;
    var planned := Planned(fs, parse, pascal, dirs, out, packageName);
    PipelineGenerates(fs, parse, pascal, args, iconsDir);
    StyleStepsComplete(fs, parse, pascal, [], dirs, out, packageName);
    assert [] + planned == planned;
    assert Finish(Completed(planned), dirs, Some(out)) == Outcome(planned + [ExportsFile.ExportsFile(dirs, out)], 0);
  }

  /** A run with a package in which the scanned style `k` is the first whose
      directory fails to read: exit code 1, and only the files of the styles
      scanned before it were written. */
  lemma PipelineAborts(fs: Snapshot, parse: string -> Option<SvgDocument>, pascal: string -> string,
                       args: seq<string>, iconsDir: string, out: string, k: nat)
    requires !HelpRequested(args)
    requires ResolveOptions(args).iconsDir == Some(iconsDir) && ResolveOptions(args).outputDir == Some(out)
    requires Generates(ResolveOptions(args).packageName)
    requires k < |AllStyles.AllStyles(fs, iconsDir)| && !Reads(fs, parse, AllStyles.AllStyles(fs, iconsDir)[k])
    requires forall i :: 0 <= i < k ==> Reads(fs, parse, AllStyles.AllStyles(fs, iconsDir)[i])
    ensures var dirs := AllStyles.AllStyles(fs, iconsDir);
            Pipeline(fs, parse, pascal, args)
            == Outcome(Planned(fs, parse, pascal, dirs[..k], out, ResolveOptions(args).packageName.value), 1)
  {
    var dirs := AllStyles.AllStyles(fs, iconsDir);
    var packageName := ResolveOptions(args).packageName.value;
    var planned := Planned(fs, parse, pascal, dirs[..k], out, packageName);
    PipelineGenerates(fs, parse, pascal, args, iconsDir);
    StyleStepsAbort(fs, parse, pascal, [], dirs, out, packageName, k);
    assert [] + planned == planned;
  }

  /** One style's share of the writes: one module per record of its
      directory, in read order, then its barrel listing those records. */
  lemma StyleWritesLayout(fs: Snapshot, parse: string -> Option<SvgDocument>, pascal: string -> string,
                          dir: StyleDirectory, out: string, packageName: string)
    requires Reads(fs, parse, dir)
    ensures var svgs := ReadSvgDirectory(fs, parse, dir.path).value;
            StyleWrites(fs, parse, pascal, dir, out, packageName)
            == IconWrites(pascal, svgs, out, dir.style, packageName)
               + [FileWrite(StyleIndexPath(out, dir.style), StyleExportsText(pascal, svgs))]
  {
  }
}
