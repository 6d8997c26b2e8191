/**
 * The vector asset reader: one SVG file becomes one record holding its
 * name, its raw text, its `viewBox` and one entry per `path` element. The
 * markup parser itself is a parameter, `parse`, which yields the root
 * `viewBox` attribute and the attributes of each `path` element in document
 * order, or None for text it refuses.
 */
module Svg {
  import opened Wrappers
  import opened Text
  import opened FileSystem

  /** The attributes of one parsed element. */
  datatype Element = Element(attrs: map<string, string>)

  /** What the parser yields for one file. */
  datatype SvgDocument = SvgDocument(viewBox: Option<string>, paths: seq<Element>)

  datatype PathData = PathData(
    d: string,
    fill: Option<string>,
    stroke: Option<string>,
    opacity: Option<string>,
    strokeWidth: Option<string>)

  /** The record `readSvg` returns (`SvgData`). */
  datatype SvgData = SvgData(name: string, content: string, viewBox: string, paths: seq<PathData>)

  const DefaultViewBox := "0 0 24 24"

  /** `$el.attr(key)`: undefined when the attribute is absent. */
  function Attr(el: Element, key: string): Option<string> {
    if key in el.attrs then Some(el.attrs[key]) else None
  }

  /** `a || b` on an optional string: an absent or empty value falls back. */
  function OrElse(a: Option<string>, fallback: string): string {
    match a
    case Some(v) => if v == "" then fallback else v
    case None => fallback
  }

  /** The entry for one `path` element: a missing or empty `d` becomes the
      empty string, the other attributes are copied as they are, and
      `stroke-width` is stored as `strokeWidth`. */
  function ToPathData(el: Element): (p: PathData)
    ensures p.d == (if "d" in el.attrs then el.attrs["d"] else "")
    ensures p.fill == Attr(el, "fill") && p.stroke == Attr(el, "stroke") && p.opacity == Attr(el, "opacity")
    ensures p.strokeWidth == Attr(el, "stroke-width")
  {
    PathData(OrElse(Attr(el, "d"), ""), Attr(el, "fill"), Attr(el, "stroke"), Attr(el, "opacity"), Attr(el, "stroke-width"))
  }

  /** Where the last `/`-separated segment of `s[..e]` starts: just after
      the last `/` before `e`, or 0. */
  function SegmentStart(s: string, e: nat): (k: nat)
    requires e <= |s|
    ensures k <= e
    ensures forall i :: k <= i < e ==> s[i] != '/'
    ensures k == 0 || s[k - 1] == '/'
  {
    if e == 0 || s[e - 1] == '/' then e else SegmentStart(s, e - 1)
  }

  /** `filePath.split('/').pop()`: what follows the last `/`, or the whole
      path when it has none. */
  function LastSegment(s: string): (r: string)
    ensures |r| <= |s| && r == s[|s| - |r|..]
    ensures '/' !in r
    ensures |r| < |s| ==> s[|s| - |r| - 1] == '/'
  {
    s[SegmentStart(s, |s|)..]
  }

  /** The icon name: the last path segment with the first `.svg` in it
      removed, wherever it stands. */
  function IconName(filePath: string): string {
    ReplaceFirst(LastSegment(filePath), ".svg", "")
  }

  /** A segment that starts after a `/` and holds none runs back to that `/`. */
  lemma {:induction false} SegmentStartAfterSlash(s: string, k: nat, e: nat)
    requires 0 < k <= e <= |s| && s[k - 1] == '/'
    requires forall i :: k <= i < e ==> s[i] != '/'
    decreases e
    ensures SegmentStart(s, e) == k
  {
    if e > k {
      SegmentStartAfterSlash(s, k, e - 1);
    }
  }

  lemma LastSegmentOfJoin(dir: string, name: string)
    requires '/' !in name
    ensures LastSegment(Join(dir, name)) == name
  {
    var s := Join(dir, name);
    var k := |dir| + 1;
    assert s[k - 1] == '/';
    assert forall i :: k <= i < |s| ==> s[i] == name[i - k];
    SegmentStartAfterSlash(s, k, |s|);
    assert s[k..] == name;
  }

  /** The name of a file `n.svg<rest>` in any directory is `n<rest>`, when
      `n` holds no `.svg`: only the first `.svg` goes, so `a.svg.svg` is
      named `a.svg`, and `home.svg` is named `home`. */
  lemma IconNameOfFile(dir: string, n: string, rest: string)
    requires '/' !in n + ".svg" + rest
    requires !Contains(n, ".svg")
    ensures IconName(Join(dir, n + ".svg" + rest)) == n + rest
  {
    LastSegmentOfJoin(dir, n + ".svg" + rest);
    ReplaceFirstAfterPrefix(n, ".svg", rest, "");
  }

  /** The name is not a suffix strip: `a.svg.svg` is named `a.svg`. */
  lemma DoubleExtensionName()
    ensures IconName(Join("icons", "a.svg.svg")) == "a.svg"
  {
    var n, ext := "a", ".svg";
    assert n + ext + ext == "a.svg.svg";
    assert n + ext == "a.svg";
    assert !Contains(n, ext) by {
      assert forall i: nat :: !OccursAt(n, ext, i);
    }
    IconNameOfFile("icons", n, ext);
  }

  /** `readSvg(filePath)`: fails when the file cannot be read or parsed. */
  function ReadSvg(fs: Snapshot, parse: string -> Option<SvgDocument>, filePath: string): (r: Result<SvgData, Error>)
    ensures r.Success? <==> filePath in fs.files && parse(fs.files[filePath]).Some?
    ensures r.Failure? ==> r.error == if filePath !in fs.files then ReadFailed(filePath) else MalformedSvg(filePath)
    ensures r.Success? ==>
              var doc := parse(fs.files[filePath]).value;
              && r.value.name == IconName(filePath)
              && r.value.content == fs.files[filePath]
              && r.value.viewBox == (if doc.viewBox.Some? && doc.viewBox.value != "" then doc.viewBox.value else DefaultViewBox)
              && |r.value.paths| == |doc.paths|
              && forall i :: 0 <= i < |doc.paths| ==> r.value.paths[i] == ToPathData(doc.paths[i])
  {
    var content :- ReadFile(fs, filePath);
    match parse(content)
    case None => Failure(MalformedSvg(filePath))
    case Some(doc) =>
      Success(SvgData(
        IconName(filePath),
        content,
        OrElse(doc.viewBox, DefaultViewBox),
        seq(|doc.paths|, i requires 0 <= i < |doc.paths| => ToPathData(doc.paths[i]))))
  }
}
