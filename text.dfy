/**
 * The JavaScript string operations the pipeline relies on: `indexOf`,
 * `replace` with a string pattern (first occurrence only), `trim`,
 * `Array.prototype.join` and `split` on one character.
 */
module Text {
  import opened Wrappers

  /** `p` occurs in `s` starting at index `i`. */
  predicate OccursAt(s: string, p: string, i: nat) {
    i + |p| <= |s| && s[i..i + |p|] == p
  }

  predicate Contains(s: string, p: string) {
    exists i: nat | i <= |s| :: OccursAt(s, p, i)
  }

  /** The first index at or after `from` where `p` occurs (`s.indexOf(p, from)`). */
  function IndexOfFrom(s: string, p: string, from: nat): (r: Option<nat>)
    decreases |s| - from
    ensures r.Some? ==> from <= r.value && OccursAt(s, p, r.value)
    ensures r.Some? ==> forall j: nat :: from <= j < r.value ==> !OccursAt(s, p, j)
    ensures r.None? ==> forall j: nat :: from <= j ==> !OccursAt(s, p, j)
  {
    if from + |p| > |s| then None
    else if OccursAt(s, p, from) then Some(from)
    else IndexOfFrom(s, p, from + 1)
  }

  function IndexOf(s: string, p: string): Option<nat> {
    IndexOfFrom(s, p, 0)
  }

  /** `s.replace(p, rep)` for a string pattern: only the first occurrence is replaced. */
  function ReplaceFirst(s: string, p: string, rep: string): string {
    match IndexOf(s, p)
    case None => s
    case Some(i) => s[..i] + rep + s[i + |p|..]
  }

  /** The first character of `p` does not reappear later in `p`, so an
      occurrence of `p` cannot overlap the start of another one. */
  predicate HeadIsUnique(p: string) {
    |p| > 0 && forall k :: 1 <= k < |p| ==> p[k] != p[0]
  }

  /** When `p` does not occur in `a`, the first occurrence of `p` in
      `a + p + b` is the one right after `a`. */
  lemma {:induction false} FirstOccurrence(a: string, p: string, b: string)
    requires HeadIsUnique(p) && !Contains(a, p)
    ensures IndexOf(a + p + b, p) == Some(|a|)
  {
    var s := a + p + b;
    assert s[|a|..|a| + |p|] == p;
    assert OccursAt(s, p, |a|);
    forall j: nat | j < |a|
      ensures !OccursAt(s, p, j)
    {
      if j + |p| <= |a| {
        assert s[j..j + |p|] == a[j..j + |p|];
        assert !OccursAt(a, p, j);
      } else {
        var k := |a| - j;
        assert 1 <= k < |p| && s[|a|] == p[0];
        assert s[j..j + |p|][k] != p[k];
      }
    }
  }

  /** Replacing the first occurrence of `p` touches only that occurrence:
      whatever follows it, later occurrences of `p` included, is kept. */
  lemma ReplaceFirstAfterPrefix(a: string, p: string, b: string, rep: string)
    requires HeadIsUnique(p) && !Contains(a, p)
    ensures ReplaceFirst(a + p + b, p, rep) == a + rep + b
  {
    FirstOccurrence(a, p, b);
    var s := a + p + b;
    assert s[..|a|] == a;
    assert s[|a| + |p|..] == b;
  }

  /** The characters `String.prototype.trim` removes: ECMAScript WhiteSpace
      (tab, vertical tab, form feed, space, no-break space, byte order mark
      and the Space_Separator category) and LineTerminator. */
  predicate IsJsWhitespace(c: char) {
    || c == '\t' || c == '\n' || c == '\U{000B}' || c == '\U{000C}' || c == '\r'
    || c == ' ' || c == '\U{00A0}' || c == '\U{1680}'
    || ('\U{2000}' <= c <= '\U{200A}')
    || c == '\U{2028}' || c == '\U{2029}' || c == '\U{202F}' || c == '\U{205F}'
    || c == '\U{3000}' || c == '\U{FEFF}'
  }

  /** How many whitespace characters `trim` removes from the front of `s`. */
  function TrimOffset(s: string): (a: nat)
    ensures a <= |s|
    ensures forall i :: 0 <= i < a ==> IsJsWhitespace(s[i])
    ensures a == |s| || !IsJsWhitespace(s[a])
  {
    if s != [] && IsJsWhitespace(s[0]) then 1 + TrimOffset(s[1..]) else 0
  }

  /** Where the kept part of `s[lo..e]` ends once trailing whitespace is
      dropped. */
  function TrimEndIndex(s: string, lo: nat, e: nat): (r: nat)
    requires lo <= e <= |s|
    decreases e
    ensures lo <= r <= e
    ensures forall i :: r <= i < e ==> IsJsWhitespace(s[i])
    ensures r == lo || !IsJsWhitespace(s[r - 1])
  {
    if e > lo && IsJsWhitespace(s[e - 1]) then TrimEndIndex(s, lo, e - 1) else e
  }

  /** `s.trim()`: the slice of `s` starting at `TrimOffset(s)` left after
      removing whitespace at both ends. */
  function Trim(s: string): (r: string)
    ensures r == [] || (!IsJsWhitespace(r[0]) && !IsJsWhitespace(r[|r| - 1]))
    ensures TrimOffset(s) + |r| <= |s| && r == s[TrimOffset(s)..TrimOffset(s) + |r|]
    ensures forall i :: 0 <= i < TrimOffset(s) ==> IsJsWhitespace(s[i])
    ensures forall i :: TrimOffset(s) + |r| <= i < |s| ==> IsJsWhitespace(s[i])
  {
    var a := TrimOffset(s);
    s[a..TrimEndIndex(s, a, |s|)]
  }

  /** `Array.prototype.join(sep)`. */
  function JoinWith(lines: seq<string>, sep: string): string {
    if |lines| == 0 then ""
    else if |lines| == 1 then lines[0]
    else lines[0] + sep + JoinWith(lines[1..], sep)
  }

  /** `s.split(c)` for a one-character separator. */
  function SplitOn(s: string, c: char): (r: seq<string>)
    decreases |s|
    ensures |r| >= 1
  {
    match IndexOf(s, [c])
    case None => [s]
    case Some(i) => [s[..i]] + SplitOn(s[i + 1..], c)
  }

  /** Splitting a joined text on the separator gives the lines back, as long
      as no line contains the separator. */
  lemma {:induction false} SplitJoin(lines: seq<string>, c: char)
    requires |lines| >= 1
    requires forall k :: 0 <= k < |lines| ==> c !in lines[k]
    ensures SplitOn(JoinWith(lines, [c]), c) == lines
  {
    if |lines| == 1 {
      NoOccurrence(lines[0], c);
    } else {
      var rest := JoinWith(lines[1..], [c]);
      NoOccurrence(lines[0], c);
      FirstOccurrence(lines[0], [c], rest);
      var s := lines[0] + [c] + rest;
      assert s[..|lines[0]|] == lines[0];
      assert s[|lines[0]| + 1..] == rest;
      SplitJoin(lines[1..], c);
    }
  }

  lemma NoOccurrence(s: string, c: char)
    requires c !in s
    ensures !Contains(s, [c])
  {
    forall i: nat
      ensures !OccursAt(s, [c], i)
    {
      if i + 1 <= |s| {
        assert s[i..i + 1] == [s[i]];
      }
    }
  }

  /** A joined text with one trailing separator is the lines joined with one
      extra, empty line: this is how every non-empty barrel file is laid out. */
  lemma {:induction false} JoinWithTrailing(lines: seq<string>, sep: string)
    requires |lines| >= 1
    ensures JoinWith(lines, sep) + sep == JoinWith(lines + [""], sep)
  {
    if |lines| >= 2 {
      JoinWithTrailing(lines[1..], sep);
      assert (lines + [""])[1..] == lines[1..] + [""];
    } else {
      assert (lines + [""])[1..] == [""];
      assert JoinWith([""], sep) == "";
    }
  }
}
