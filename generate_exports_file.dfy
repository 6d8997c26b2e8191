/** `generateExportsFile`: the top-level barrel `<outputDir>/index.ts`
    re-exporting every per-style barrel. */
module ExportsFile {
  import opened Text
  import opened FileSystem
  import opened AllStyles

  /** The re-export line of one style directory. */
  function StyleLine(style: IconStyle): string {
    "export * from './" + style.Name() + "/index.js';"
  }

  function StyleLines(dirs: seq<StyleDirectory>): (lines: seq<string>)
    ensures |lines| == |dirs|
    ensures forall i :: 0 <= i < |dirs| ==> lines[i] == StyleLine(dirs[i].style)
  {
    seq(|dirs|, i requires 0 <= i < |dirs| => StyleLine(dirs[i].style))
  }

  function ExportsIndexPath(outputDir: string): string {
    Join(outputDir, "index.ts")
  }

  /** What `generateExportsFile(styleDirectories, outputDir)` writes. */
  function ExportsFile(dirs: seq<StyleDirectory>, outputDir: string): (w: FileWrite)
    ensures w.path == ExportsIndexPath(outputDir)
  {
    FileWrite(ExportsIndexPath(outputDir), JoinWith(StyleLines(dirs), "\n") + "\n")
  }

  /** No style name holds a line feed. */
  lemma StyleLineSingle(style: IconStyle)
    ensures '\n' !in StyleLine(style)
  {
    var n := style.Name();
    assert '\n' !in n by {
      match style
      case BulkRounded =>
      case DuotoneRounded =>
      case SolidRounded =>
      case SolidSharp =>
      case SolidStandard =>
      case StrokeRounded =>
      case StrokeSharp =>
      case StrokeStandard =>
      case TwotoneRounded =>
    }
  }

  /** Read line by line, the barrel holds one re-export per style directory,
      in the given order, each ended by a line feed; with no styles it is a
      single line feed. */
  lemma ExportsFileLines(dirs: seq<StyleDirectory>, outputDir: string)
    ensures dirs == [] ==> ExportsFile(dirs, outputDir).content == "\n"
    ensures dirs != [] ==> SplitOn(ExportsFile(dirs, outputDir).content, '\n') == StyleLines(dirs) + [""]
  {
    var lines := StyleLines(dirs);
    if dirs != [] {
      JoinWithTrailing(lines, "\n");
      var all := lines + [""];
      forall k | 0 <= k < |all|
        ensures '\n' !in all[k]
      {
        if k < |lines| {
          StyleLineSingle(dirs[k].style);
        }
      }
      SplitJoin(all, '\n');
    }
  }
}
