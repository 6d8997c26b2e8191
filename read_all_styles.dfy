/**
 * The style directory scanner: for each of the nine known styles, in their
 * fixed order, list `<iconsDir>/<style>` and keep its `.svg` entries; a
 * style whose listing throws is skipped with a warning.
 */
module AllStyles {
  import opened Wrappers
  import opened FileSystem

  datatype IconStyle =
    | BulkRounded | DuotoneRounded | SolidRounded | SolidSharp | SolidStandard
    | StrokeRounded | StrokeSharp | StrokeStandard | TwotoneRounded
  {
    /** The directory name of the style. */
    function Name(): string {
      match this
      case BulkRounded => "bulk-rounded"
      case DuotoneRounded => "duotone-rounded"
      case SolidRounded => "solid-rounded"
      case SolidSharp => "solid-sharp"
      case SolidStandard => "solid-standard"
      case StrokeRounded => "stroke-rounded"
      case StrokeSharp => "stroke-sharp"
      case StrokeStandard => "stroke-standard"
      case TwotoneRounded => "twotone-rounded"
    }

    /** The position of the style in `IconStyles`. */
    function Index(): (k: nat)
      ensures k < |IconStyles| && IconStyles[k] == this
    {
      match this
      case BulkRounded => 0
      case DuotoneRounded => 1
      case SolidRounded => 2
      case SolidSharp => 3
      case SolidStandard => 4
      case StrokeRounded => 5
      case StrokeSharp => 6
      case StrokeStandard => 7
      case TwotoneRounded => 8
    }
  }

  /** `ICON_STYLES`, in canonical order. */
  const IconStyles: seq<IconStyle> := [
    BulkRounded, DuotoneRounded, SolidRounded, SolidSharp, SolidStandard,
    StrokeRounded, StrokeSharp, StrokeStandard, TwotoneRounded
  ]

  datatype StyleDirectory = StyleDirectory(style: IconStyle, path: string, files: seq<string>)

  /** One iteration of the scan: the entry for `style`, or None when listing
      its directory throws. */
  function ScanStyle(fs: Snapshot, iconsDir: string, style: IconStyle): Option<StyleDirectory> {
    var stylePath := Join(iconsDir, style.Name());
    match ListDir(fs, stylePath)
    case Success(files) => Some(StyleDirectory(style, stylePath, SvgEntries(files)))
    case Failure(_) => None
  }

  /** The styles directory of `style` lists successfully. */
  predicate Present(fs: Snapshot, iconsDir: string, style: IconStyle) {
    ListDir(fs, Join(iconsDir, style.Name())).Success?
  }

  /** The entries collected after the first `n` styles of the scan. */
  function Scanned(fs: Snapshot, iconsDir: string, n: nat): seq<StyleDirectory>
    requires n <= |IconStyles|
  {
    if n == 0 then [] else Scanned(fs, iconsDir, n - 1) + Pushed(fs, iconsDir, IconStyles[n - 1])
  }

  /** What one iteration pushes. */
  function Pushed(fs: Snapshot, iconsDir: string, style: IconStyle): seq<StyleDirectory> {
    match ScanStyle(fs, iconsDir, style)
    case Some(d) => [d]
    case None => []
  }

  /** An iteration pushes the entry of its own style, and only when that
      style's directory lists. */
  lemma PushedStyles(fs: Snapshot, iconsDir: string, style: IconStyle)
    ensures StylesOf(Pushed(fs, iconsDir, style)) == if Present(fs, iconsDir, style) then [style] else []
  {
  }

  /** What `readAllStyles(iconsDir)` returns. */
  function AllStyles(fs: Snapshot, iconsDir: string): seq<StyleDirectory> {
    Scanned(fs, iconsDir, |IconStyles|)
  }

  function StylesOf(dirs: seq<StyleDirectory>): seq<IconStyle> {
    seq(|dirs|, i requires 0 <= i < |dirs| => dirs[i].style)
  }

  /** `readAllStyles`: the loop over `ICON_STYLES` pushing one entry per
      listable style. */
  method ReadAllStyles(fs: Snapshot, iconsDir: string) returns (dirs: seq<StyleDirectory>)
    ensures dirs == AllStyles(fs, iconsDir)
  {
    dirs := [];
    var i := 0;
    while i < |IconStyles|
      invariant 0 <= i <= |IconStyles|
      invariant dirs == Scanned(fs, iconsDir, i)
    {
      var style := IconStyles[i];
      var stylePath := Join(iconsDir, style.Name());
      var listing := ListDir(fs, stylePath);
      if listing.Success? {
        dirs := dirs + [StyleDirectory(style, stylePath, SvgEntries(listing.value))];
      }
      i := i + 1;
    }
  }

  /** The scanned styles come in canonical order with no style twice, so they
      are a subsequence of `ICON_STYLES`; there are at most as many entries as
      styles tried. */
  lemma {:induction false} ScanOrder(fs: Snapshot, iconsDir: string, n: nat)
    requires n <= |IconStyles|
    ensures |Scanned(fs, iconsDir, n)| <= n
    ensures forall i :: 0 <= i < |Scanned(fs, iconsDir, n)| ==> Scanned(fs, iconsDir, n)[i].style.Index() < n
    ensures forall i, j :: 0 <= i < j < |Scanned(fs, iconsDir, n)| ==>
              Scanned(fs, iconsDir, n)[i].style.Index() < Scanned(fs, iconsDir, n)[j].style.Index()
  {
    if n > 0 {
      ScanOrder(fs, iconsDir, n - 1);
      OrderStep(fs, iconsDir, n);
    }
  }

  /** One more iteration pushes at most one entry, of the style tried last. */
  lemma OrderStep(fs: Snapshot, iconsDir: string, n: nat)
    requires 0 < n <= |IconStyles|
    requires var prev := Scanned(fs, iconsDir, n - 1);
             && |prev| <= n - 1
             && (forall i :: 0 <= i < |prev| ==> prev[i].style.Index() < n - 1)
             && (forall i, j :: 0 <= i < j < |prev| ==> prev[i].style.Index() < prev[j].style.Index())
    ensures var all := Scanned(fs, iconsDir, n);
            && |all| <= n
            && (forall i :: 0 <= i < |all| ==> all[i].style.Index() < n)
            && (forall i, j :: 0 <= i < j < |all| ==> all[i].style.Index() < all[j].style.Index())
  {
    var t := IconStyles[n - 1];
    var prev := Scanned(fs, iconsDir, n - 1);
    match ScanStyle(fs, iconsDir, t)
    case None =>
      assert Scanned(fs, iconsDir, n) == prev;
    case Some(d) =>
      assert Scanned(fs, iconsDir, n) == prev + [d];
      assert d.style == t;
      PositionIndex(n - 1);
  }

  /** The list of styles names every style once: position and index agree. */
  lemma PositionIndex(k: nat)
    requires k < |IconStyles|
    ensures IconStyles[k].Index() == k
  {
    if k == 0 {} else if k == 1 {} else if k == 2 {} else if k == 3 {}
    else if k == 4 {} else if k == 5 {} else if k == 6 {} else if k == 7 {}
  }

  /** A style is in the result exactly when it was tried and its directory
      lists: a missing directory is left out and the scan goes on. */
  lemma {:induction false} ScanMembership(fs: Snapshot, iconsDir: string, n: nat, style: IconStyle)
    requires n <= |IconStyles|
    ensures style in StylesOf(Scanned(fs, iconsDir, n)) <==> style in IconStyles[..n] && Present(fs, iconsDir, style)
  {
    if n > 0 {
      ScanMembership(fs, iconsDir, n - 1, style);
      MembershipStep(fs, iconsDir, n, style);
    }
  }

  /** One more iteration adds its style exactly when that style lists. */
  lemma MembershipStep(fs: Snapshot, iconsDir: string, n: nat, style: IconStyle)
    requires 0 < n <= |IconStyles|
    requires style in StylesOf(Scanned(fs, iconsDir, n - 1)) <==> style in IconStyles[..n - 1] && Present(fs, iconsDir, style)
    ensures style in StylesOf(Scanned(fs, iconsDir, n)) <==> style in IconStyles[..n] && Present(fs, iconsDir, style)
  {
    var t := IconStyles[n - 1];
    var before := StylesOf(Scanned(fs, iconsDir, n - 1));
    var pushed := StylesOf(Pushed(fs, iconsDir, t));
    StylesOfAppend(Scanned(fs, iconsDir, n - 1), Pushed(fs, iconsDir, t));
    assert StylesOf(Scanned(fs, iconsDir, n)) == before + pushed;
    PushedStyles(fs, iconsDir, t);
    assert style in pushed <==> style == t && Present(fs, iconsDir, t);
    assert IconStyles[..n] == IconStyles[..n - 1] + [t];
  }

  lemma StylesOfAppend(a: seq<StyleDirectory>, b: seq<StyleDirectory>)
    ensures StylesOf(a + b) == StylesOf(a) + StylesOf(b)
  {
  }

  /** Every entry records the joined path of its style and exactly the `.svg`
      entries of that directory's listing, in listing order; a listable style
      with no `.svg` file still has its (empty) entry. */
  lemma {:induction false} ScanEntries(fs: Snapshot, iconsDir: string, n: nat)
    requires n <= |IconStyles|
    ensures forall i :: 0 <= i < |Scanned(fs, iconsDir, n)| ==>
              var d := Scanned(fs, iconsDir, n)[i];
              && d.path == Join(iconsDir, d.style.Name())
              && d.path in fs.dirs
              && d.files == SvgEntries(fs.dirs[d.path])
  {
    if n > 0 {
      ScanEntries(fs, iconsDir, n - 1);
    }
  }

  /** The whole scan: at most nine entries, in canonical order, exactly the
      listable styles. */
  lemma AllStylesSpec(fs: Snapshot, iconsDir: string)
    ensures |AllStyles(fs, iconsDir)| <= 9
    ensures forall i, j :: 0 <= i < j < |AllStyles(fs, iconsDir)| ==>
              AllStyles(fs, iconsDir)[i].style.Index() < AllStyles(fs, iconsDir)[j].style.Index()
    ensures forall s: IconStyle :: s in StylesOf(AllStyles(fs, iconsDir)) <==> Present(fs, iconsDir, s)
  {
    ScanOrder(fs, iconsDir, |IconStyles|);
    forall s: IconStyle
      ensures s in StylesOf(AllStyles(fs, iconsDir)) <==> Present(fs, iconsDir, s)
    {
      ScanMembership(fs, iconsDir, |IconStyles|, s);
      assert IconStyles[s.Index()] == s;
      assert IconStyles[..|IconStyles|] == IconStyles;
    }
  }
}
