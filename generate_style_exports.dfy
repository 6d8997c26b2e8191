/** `generateStyleExports`: the barrel file `<outputDir>/<style>/index.ts`
    re-exporting every generated component of one style. */
module StyleExports {
  import opened Wrappers
  import opened Text
  import opened FileSystem
  import opened AllStyles
  import opened Svg
  import opened SvgDirectory

  /** The re-export line of one component. */
  function ExportLine(componentName: string): string {
    "export { default as " + componentName + " } from './" + componentName + ".js';"
  }

  function ExportLines(pascal: string -> string, svgs: seq<SvgData>): (lines: seq<string>)
    ensures |lines| == |svgs|
    ensures forall i :: 0 <= i < |svgs| ==> lines[i] == ExportLine(pascal(svgs[i].name))
  {
    seq(|svgs|, i requires 0 <= i < |svgs| => ExportLine(pascal(svgs[i].name)))
  }

  /** The barrel text: the lines joined by a line feed, and one more line feed. */
  function StyleExportsText(pascal: string -> string, svgs: seq<SvgData>): string {
    JoinWith(ExportLines(pascal, svgs), "\n") + "\n"
  }

  function StyleIndexPath(outputDir: string, style: IconStyle): string {
    Join(Join(outputDir, style.Name()), "index.ts")
  }

  /** What `generateStyleExports(styleDir, outputDir)` writes, or the error
      of its `readSvgDirectory`. */
  function StyleExports(fs: Snapshot, parse: string -> Option<SvgDocument>, pascal: string -> string,
                        styleDir: StyleDirectory, outputDir: string): (r: Result<FileWrite, Error>)
    ensures r.Success? <==> ReadSvgDirectory(fs, parse, styleDir.path).Success?
    ensures r.Success? ==> r.value.path == StyleIndexPath(outputDir, styleDir.style)
    ensures r.Failure? ==> r.error == ReadSvgDirectory(fs, parse, styleDir.path).error
  {
    var svgs :- ReadSvgDirectory(fs, parse, styleDir.path);
    Success(FileWrite(StyleIndexPath(outputDir, styleDir.style), StyleExportsText(pascal, svgs)))
  }

  /** Read line by line, the barrel holds one re-export per record, in read
      order (two records with one component name give two equal lines), each
      ended by a line feed; with no records it is a single line feed. */
  lemma StyleExportsLines(pascal: string -> string, svgs: seq<SvgData>)
    requires forall i :: 0 <= i < |svgs| ==> '\n' !in pascal(svgs[i].name)
    ensures svgs == [] ==> StyleExportsText(pascal, svgs) == "\n"
    ensures svgs != [] ==> SplitOn(StyleExportsText(pascal, svgs), '\n') == ExportLines(pascal, svgs) + [""]
  {
    var lines := ExportLines(pascal, svgs);
    if svgs != [] {
      JoinWithTrailing(lines, "\n");
      var all := lines + [""];
      forall k | 0 <= k < |all|
        ensures '\n' !in all[k]
      {
        if k < |lines| {
          var n := pascal(svgs[k].name);
          assert lines[k] == "export { default as " + n + " } from './" + n + ".js';";
        }
      }
      SplitJoin(all, '\n');
    }
  }
}
