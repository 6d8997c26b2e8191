/**
 * `generateIconFiles` and `generateComponentCode`: one generated module per
 * SVG record, written to `<outputDir>/<style>/<Component>.tsx`. The source
 * text loses its opening `<svg ...>` tag and its closing `</svg>` and is
 * embedded as a JSON string literal in one of two templates.
 */
module IconFiles {
  import opened Wrappers
  import opened Text
  import Json
  import opened FileSystem
  import opened AllStyles
  import opened Svg
  import opened SvgDirectory

  /** The end (exclusive) of a match of `<svg[^>]*>` starting at `i`: the
      `[^>]*` part cannot cross a `>`, so the match ends at the first `>` after
      `<svg`. None when no match starts at `i`. */
  function OpenTagAt(s: string, i: nat): (r: Option<nat>)
    ensures r.Some? ==> OccursAt(s, "<svg", i) && i + 4 < r.value <= |s| && s[r.value - 1] == '>'
    ensures r.Some? ==> forall k :: i + 4 <= k < r.value - 1 ==> s[k] != '>'
    ensures r.None? && OccursAt(s, "<svg", i) ==> forall k :: i + 4 <= k < |s| ==> s[k] != '>'
  {
    if !OccursAt(s, "<svg", i) then None
    else match IndexOfFrom(s, ">", i + 4)
      case None =>
        assert forall k :: i + 4 <= k < |s| ==> (s[k] == '>' ==> OccursAt(s, ">", k));
        None
      case Some(k) =>
        assert forall j :: i + 4 <= j < k ==> (s[j] == '>' ==> OccursAt(s, ">", j));
        Some(k + 1)
  }

  /** The leftmost match of `<svg[^>]*>` at or after `from`, as the regular
      expression engine finds it: the start and the end (exclusive). */
  function FindOpenTag(s: string, from: nat): (r: Option<(nat, nat)>)
    decreases |s| - from
    ensures r.Some? ==> from <= r.value.0 && OpenTagAt(s, r.value.0) == Some(r.value.1)
    ensures r.Some? ==> forall j :: from <= j < r.value.0 ==> OpenTagAt(s, j).None?
    ensures r.None? ==> forall j :: from <= j ==> OpenTagAt(s, j).None?
  {
    if from >= |s| then None
    else match OpenTagAt(s, from)
      case Some(e) => Some((from, e))
      case None => FindOpenTag(s, from + 1)
  }

  /** `s.replace(/<svg[^>]*>/, '')`. */
  function StripOpenTag(s: string): string {
    match FindOpenTag(s, 0)
    case None => s
    case Some((i, e)) => s[..i] + s[e..]
  }

  /** The markup embedded in the generated module. */
  function Inner(svgContent: string): string {
    Trim(ReplaceFirst(StripOpenTag(svgContent), "</svg>", ""))
  }

  /** No leading or trailing whitespace is left in the embedded markup. */
  lemma InnerIsTrimmed(svgContent: string)
    ensures var r := Inner(svgContent);
            r == [] || (!IsJsWhitespace(r[0]) && !IsJsWhitespace(r[|r| - 1]))
  {
  }

  /** A `<svg` at `i` followed by `t`, which holds no `>`, and then a `>`
      is matched up to and including that `>`. */
  lemma OpenTagAtShape(s: string, i: nat, t: string)
    requires OccursAt(s, "<svg", i) && i + 4 + |t| < |s|
    requires s[i + 4..i + 4 + |t|] == t && '>' !in t && s[i + 4 + |t|] == '>'
    ensures OpenTagAt(s, i) == Some(i + 5 + |t|)
  {
    var k := i + 4 + |t|;
    assert s[k..k + 1] == ">";
    forall j | i + 4 <= j < k
      ensures !OccursAt(s, ">", j)
    {
      assert s[j] == t[j - i - 4];
      assert s[j..j + 1][0] == s[j];
    }
    assert OccursAt(s, ">", k);
    var found := IndexOfFrom(s, ">", i + 4);
    assert found.Some? && found.value <= k;
  }

  /** The leftmost match starts at the first `<svg` once a match starts there. */
  lemma StripAtFirstTag(s: string, i: nat, e: nat)
    requires OpenTagAt(s, i) == Some(e)
    requires forall j: nat :: j < i ==> !OccursAt(s, "<svg", j)
    ensures StripOpenTag(s) == s[..i] + s[e..]
  {
    var r := FindOpenTag(s, 0);
    assert r.Some? && r.value.0 <= i;
    assert r.value.0 >= i;
  }

  /** For a text `a<svg t>rest` in which `a` holds no `<svg` and `t` no `>`,
      the opening tag `<svg t>` is what goes. */
  lemma StripOfSvg(a: string, t: string, rest: string)
    requires !Contains(a, "<svg") && '>' !in t
    ensures StripOpenTag(a + "<svg" + t + ">" + rest) == a + rest
  {
    var s := a + "<svg" + t + ">" + rest;
    FirstOccurrence(a, "<svg", t + ">" + rest);
    assert s == a + "<svg" + (t + ">" + rest);
    var i := |a|;
    assert s[i..i + 4] == "<svg";
    assert s[i + 4..i + 4 + |t|] == t;
    OpenTagAtShape(s, i, t);
    StripAtFirstTag(s, i, i + 5 + |t|);
    assert s[..i] == a;
    assert s[i + 5 + |t|..] == rest;
  }

  /** Step helpers for `InnerOfSvg`: each states one rewriting on its own,
      so that the proof there never holds the whole text in one context. */
  lemma InnerOfStripped(s: string, x: string)
    requires ReplaceFirst(StripOpenTag(s), "</svg>", "") == x
    ensures Inner(s) == Trim(x)
  {
  }

  lemma Regroup(w: string, x: string, y: string, z: string)
    ensures w + x + y + z == w + (x + y + z)
  {
  }

  /** For a text `a<svg t>m</svg>b` in which `a` holds no `<svg`, `t` no `>`
      and `a + m` no `</svg>`, the embedded markup is `a + m + b`, trimmed:
      only the first opening and the first closing tag go, and later
      occurrences in `b` are kept. */
  lemma InnerOfSvg(a: string, t: string, m: string, b: string)
    requires !Contains(a, "<svg") && '>' !in t && !Contains(a + m, "</svg>")
    ensures Inner(a + "<svg" + t + ">" + m + "</svg>" + b) == Trim(a + m + b)
  {
    var open := a + "<svg" + t + ">";
    var rest := m + "</svg>" + b;
    var s := open + m + "</svg>" + b;
    Regroup(open, m, "</svg>", b);
    StripOfSvg(a, t, rest);
    Regroup(a, m, "</svg>", b);
    ReplaceFirstAfterPrefix(a + m, "</svg>", b, "");
    assert ReplaceFirst(StripOpenTag(s), "</svg>", "") == a + m + b;
    InnerOfStripped(s, a + m + b);
  }

  /** The text before and after the literal in the `react` template. */
  function ReactHead(name: string): string {
    "import createLucideIcon from '../../createLucideIcon';\n\nconst " + name +
    " = createLucideIcon('" + name + "', [\n  "
  }

  function ReactTail(name: string): string {
    "\n]);\n\nexport default " + name + ";\n"
  }

  /** The text before and after the literal in the plain data template. */
  function DataHead(name: string): string {
    "export const " + name + " = "
  }

  const DataTail := ";\n"

  const ReactPackage := "react"

  /** `generateComponentCode(componentName, svgContent, packageName)`: the
      `react` package gets a component built by `createLucideIcon`, every
      other package a plain named export of the markup. */
  function ComponentCode(componentName: string, svgContent: string, packageName: string): (code: string)
    ensures packageName != ReactPackage ==> code == DataHead(componentName) + Json.Quote(Inner(svgContent)) + DataTail
  {
    var literal := Json.Quote(Inner(svgContent));
    if packageName == ReactPackage then ReactHead(componentName) + literal + ReactTail(componentName)
    else DataHead(componentName) + literal + DataTail
  }

  /** The middle of `code` once the known `head` and `tail` are cut off. */
  function Unwrap(code: string, head: string, tail: string): Option<string> {
    if |head| + |tail| <= |code| && code[..|head|] == head && code[|code| - |tail|..] == tail
    then Some(code[|head|..|code| - |tail|])
    else None
  }

  lemma UnwrapWrapped(head: string, middle: string, tail: string)
    ensures Unwrap(head + middle + tail, head, tail) == Some(middle)
  {
    var code := head + middle + tail;
    assert code[..|head|] == head;
    assert code[|code| - |tail|..] == tail;
    assert code[|head|..|code| - |tail|] == middle;
  }

  /** Reads the markup back out of a generated module: drops the known text
      around the literal and decodes the literal as a JSON string. */
  function EmbeddedMarkup(code: string, componentName: string, react: bool): Option<string> {
    var head := if react then ReactHead(componentName) else DataHead(componentName);
    var tail := if react then ReactTail(componentName) else DataTail;
    match Unwrap(code, head, tail)
    case Some(literal) => Json.Decode(literal)
    case None => None
  }

  /** Round trip: in both templates the literal is a JSON string that decodes
      to the embedded markup exactly, and the template is the `react` one
      only for the package `react`. */
  lemma ComponentCodeEmbedsMarkup(componentName: string, svgContent: string, packageName: string)
    ensures EmbeddedMarkup(ComponentCode(componentName, svgContent, packageName), componentName, packageName == ReactPackage)
            == Some(Inner(svgContent))
  {
    var react := packageName == ReactPackage;
    var head := if react then ReactHead(componentName) else DataHead(componentName);
    var tail := if react then ReactTail(componentName) else DataTail;
    var literal := Json.Quote(Inner(svgContent));
    assert ComponentCode(componentName, svgContent, packageName) == head + literal + tail;
    UnwrapWrapped(head, literal, tail);
    Json.QuoteDecodes(Inner(svgContent));
  }

  /** `join(join(outputDir, style), `${componentName}.tsx`)`. */
  function IconPath(outputDir: string, style: IconStyle, componentName: string): string {
    Join(Join(outputDir, style.Name()), componentName + ".tsx")
  }

  lemma IconPathInjective(outputDir: string, style: IconStyle, a: string, b: string)
    requires IconPath(outputDir, style, a) == IconPath(outputDir, style, b)
    ensures a == b
  {
    JoinInjective(Join(outputDir, style.Name()), a + ".tsx", b + ".tsx");
    assert a == (a + ".tsx")[..|a|];
  }

  function IconWrite(pascal: string -> string, svg: SvgData, outputDir: string, style: IconStyle, packageName: string): FileWrite {
    var componentName := pascal(svg.name);
    FileWrite(IconPath(outputDir, style, componentName), ComponentCode(componentName, svg.content, packageName))
  }

  /** The writes of the loop over `svgs`, in order. */
  function IconWrites(pascal: string -> string, svgs: seq<SvgData>, outputDir: string, style: IconStyle, packageName: string):
    seq<FileWrite>
  {
    if svgs == [] then []
    else IconWrites(pascal, svgs[..|svgs| - 1], outputDir, style, packageName)
         + [IconWrite(pascal, svgs[|svgs| - 1], outputDir, style, packageName)]
  }

  /** One write per record, in record order. */
  lemma {:induction false} IconWritesAt(pascal: string -> string, svgs: seq<SvgData>, outputDir: string, style: IconStyle, packageName: string)
    ensures |IconWrites(pascal, svgs, outputDir, style, packageName)| == |svgs|
    ensures forall i :: 0 <= i < |svgs| ==>
              IconWrites(pascal, svgs, outputDir, style, packageName)[i] == IconWrite(pascal, svgs[i], outputDir, style, packageName)
  {
    if svgs != [] {
      var init := svgs[..|svgs| - 1];
      IconWritesAt(pascal, init, outputDir, style, packageName);
      var prev := IconWrites(pascal, init, outputDir, style, packageName);
      var last := IconWrite(pascal, svgs[|svgs| - 1], outputDir, style, packageName);
      assert IconWrites(pascal, svgs, outputDir, style, packageName) == prev + [last];
      forall i | 0 <= i < |svgs|
        ensures (prev + [last])[i] == IconWrite(pascal, svgs[i], outputDir, style, packageName)
      {
        if i < |svgs| - 1 {
          assert svgs[i] == init[i];
        }
      }
    }
  }

  lemma IconWritesSnoc(pascal: string -> string, svgs: seq<SvgData>, i: nat, outputDir: string, style: IconStyle, packageName: string)
    requires i < |svgs|
    ensures IconWrites(pascal, svgs[..i + 1], outputDir, style, packageName)
            == IconWrites(pascal, svgs[..i], outputDir, style, packageName) + [IconWrite(pascal, svgs[i], outputDir, style, packageName)]
  {
    assert svgs[..i + 1][..i] == svgs[..i];
  }

  /** What `generateIconFiles(styleDir, outputDir, packageName)` writes, or
      the error that stops it before its first write. */
  function IconFiles(fs: Snapshot, parse: string -> Option<SvgDocument>, pascal: string -> string,
                     styleDir: StyleDirectory, outputDir: string, packageName: string): (r: Result<seq<FileWrite>, Error>)
    ensures r.Success? <==> ReadSvgDirectory(fs, parse, styleDir.path).Success?
    ensures r.Failure? ==> r.error == ReadSvgDirectory(fs, parse, styleDir.path).error
  {
    var svgs :- ReadSvgDirectory(fs, parse, styleDir.path);
    Success(IconWrites(pascal, svgs, outputDir, styleDir.style, packageName))
  }

  /** `generateIconFiles`: read the style directory, then write one module per
      record, one at a time. */
  method GenerateIconFiles(fs: Snapshot, parse: string -> Option<SvgDocument>, pascal: string -> string,
                           styleDir: StyleDirectory, outputDir: string, packageName: string)
    returns (r: Result<seq<FileWrite>, Error>)
    ensures r == IconFiles(fs, parse, pascal, styleDir, outputDir, packageName)
  {
    var read := ReadSvgDirectory(fs, parse, styleDir.path);
    if read.Failure? {
      return Failure(read.error);
    }
    var svgs := read.value;
    var writes: seq<FileWrite> := [];
    var i := 0;
    while i < |svgs|
      invariant 0 <= i <= |svgs|
      invariant writes == IconWrites(pascal, svgs[..i], outputDir, styleDir.style, packageName)
    {
      var componentName := pascal(svgs[i].name);
      var code := ComponentCode(componentName, svgs[i].content, packageName);
      var write := FileWrite(IconPath(outputDir, styleDir.style, componentName), code);
      IconWritesSnoc(pascal, svgs, i, outputDir, styleDir.style, packageName);
      writes := writes + [write];
      i := i + 1;
    }
    assert svgs[..|svgs|] == svgs;
    return Success(writes);
  }

  /** After the writes, the module of each record sits at the path of its
      component name, and when several records share a component name the
      last of them decides the content. */
  lemma IconFilesOnDisk(pascal: string -> string, svgs: seq<SvgData>, outputDir: string, style: IconStyle,
                       packageName: string, disk: map<string, string>, i: nat)
    requires i < |svgs|
    requires forall j :: i < j < |svgs| ==> pascal(svgs[j].name) != pascal(svgs[i].name)
    ensures var files := Apply(disk, IconWrites(pascal, svgs, outputDir, style, packageName));
            var n := pascal(svgs[i].name);
            && IconPath(outputDir, style, n) in files
            && files[IconPath(outputDir, style, n)] == ComponentCode(n, svgs[i].content, packageName)
  {
    var writes := IconWrites(pascal, svgs, outputDir, style, packageName);
    IconWritesAt(pascal, svgs, outputDir, style, packageName);
    forall j | i < j < |writes|
      ensures writes[j].path != writes[i].path
    {
      if writes[j].path == writes[i].path {
        IconPathInjective(outputDir, style, pascal(svgs[j].name), pascal(svgs[i].name));
      }
    }
    ApplyLastWins(disk, writes, i);
  }
}
