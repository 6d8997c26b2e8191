/**
 * JSON string literals (section 7 of RFC 8259): `Quote` is what
 * `JSON.stringify` produces for a string, and `Decode` reads a literal back
 * following the grammar of that section.
 */
module Json {
  import opened Wrappers

  /** Lower-case hexadecimal digit, as `JSON.stringify` writes them. */
  function HexDigit(n: nat): char
    requires n < 16
  {
    if n < 10 then ('0' as int + n) as char else ('a' as int + n - 10) as char
  }

  /** The value of a hexadecimal digit of either case. */
  function HexValue(c: char): Option<nat> {
    if '0' <= c <= '9' then Some(c as int - '0' as int)
    else if 'a' <= c <= 'f' then Some(c as int - 'a' as int + 10)
    else if 'A' <= c <= 'F' then Some(c as int - 'A' as int + 10)
    else None
  }

  /** One character as `JSON.stringify` writes it inside a string literal:
      the two-character escapes for quote, backslash, backspace, tab, line
      feed, form feed and carriage return, `\u00xx` for the other control
      characters, and every other character as itself. */
  function EscapeChar(c: char): string {
    if c == '"' then "\\\""
    else if c == '\\' then "\\\\"
    else if c == '\U{0008}' then "\\b"
    else if c == '\t' then "\\t"
    else if c == '\n' then "\\n"
    else if c == '\U{000C}' then "\\f"
    else if c == '\r' then "\\r"
    else if c < ' ' then "\\u00" + [HexDigit(c as int / 16), HexDigit(c as int % 16)]
    else [c]
  }

  /** The body of the literal. Every character of it is at least U+0020:
      no control character is left unescaped. */
  function Escape(s: string): (r: string)
    ensures forall i :: 0 <= i < |r| ==> r[i] >= ' '
  {
    if s == [] then [] else EscapeChar(s[0]) + Escape(s[1..])
  }

  /** `JSON.stringify(s)` for a string `s`. */
  function Quote(s: string): string {
    "\"" + Escape(s) + "\""
  }

  /** The character of a two-character escape `\c`. */
  function ShortEscape(c: char): Option<char> {
    if c == '"' then Some('"')
    else if c == '\\' then Some('\\')
    else if c == '/' then Some('/')
    else if c == 'b' then Some('\U{0008}')
    else if c == 'f' then Some('\U{000C}')
    else if c == 'n' then Some('\n')
    else if c == 'r' then Some('\r')
    else if c == 't' then Some('\t')
    else None
  }

  /** The code unit written by the four hexadecimal digits at `t[i..i + 4]`. */
  function Hex4(t: string, i: nat): (r: Option<nat>)
    ensures r.Some? ==> r.value < 0x1_0000
  {
    if i + 4 > |t| then None
    else match (HexValue(t[i]), HexValue(t[i + 1]), HexValue(t[i + 2]), HexValue(t[i + 3]))
      case (Some(a), Some(b), Some(c), Some(d)) =>
        if a < 16 && b < 16 && c < 16 && d < 16 then Some(a * 4096 + b * 256 + c * 16 + d) else None
      case _ => None
  }

  /** One escape sequence at the start of `t`: the character it stands for and
      its length. A `\u` escape of a high surrogate must be followed by one of
      a low surrogate; the pair stands for one supplementary character. A lone
      surrogate has no character of its own and is refused. */
  function DecodeEscape(t: string): (r: Option<(char, nat)>)
    requires |t| >= 1 && t[0] == '\\'
    ensures r.Some? ==> 2 <= r.value.1 <= |t|
  {
    if |t| < 2 then None
    else if t[1] != 'u' then
      match ShortEscape(t[1])
      case Some(c) => Some((c, 2))
      case None => None
    else match Hex4(t, 2)
      case None => None
      case Some(u) =>
        if u < 0xD800 || 0xE000 <= u then Some((u as char, 6))
        else if 0xDC00 <= u then None
        else if |t| < 8 || t[6] != '\\' || t[7] != 'u' then None
        else match Hex4(t, 8)
          case Some(w) =>
            if 0xDC00 <= w < 0xE000
            then Some(((0x1_0000 + (u - 0xD800) * 0x400 + (w - 0xDC00)) as char, 12))
            else None
          case None => None
  }

  function Prepend(c: char, r: Option<string>): Option<string> {
    match r
    case Some(s) => Some([c] + s)
    case None => None
  }

  /** The characters of a literal whose opening quote has been read; `t` must
      end with the closing quote and hold nothing after it. */
  function DecodeBody(t: string): Option<string>
    decreases |t|
  {
    if |t| == 0 then None
    else if t[0] == '"' then (if |t| == 1 then Some("") else None)
    else if t[0] < ' ' then None
    else if t[0] == '\\' then
      match DecodeEscape(t)
      case Some((c, n)) => Prepend(c, DecodeBody(t[n..]))
      case None => None
    else Prepend(t[0], DecodeBody(t[1..]))
  }

  /** The string a whole JSON string literal stands for, or None when `t` is
      not one. */
  function Decode(t: string): Option<string> {
    if |t| >= 1 && t[0] == '"' then DecodeBody(t[1..]) else None
  }

  /** `t` is a JSON string literal. */
  predicate IsJsonString(t: string) {
    Decode(t).Some?
  }

  lemma EscapeCharDecodes(c: char, rest: string)
    ensures DecodeBody(EscapeChar(c) + rest) == Prepend(c, DecodeBody(rest))
  {
    var t := EscapeChar(c) + rest;
    if c == '"' || c == '\\' || c == '\U{0008}' || c == '\t' || c == '\n' || c == '\U{000C}' || c == '\r' {
      assert t[2..] == rest;
    } else if c < ' ' {
      var hi, lo := c as int / 16, c as int % 16;
      assert t[2] == '0' && t[3] == '0' && t[4] == HexDigit(hi) && t[5] == HexDigit(lo);
      assert Hex4(t, 2) == Some(c as int);
      assert t[6..] == rest;
    } else {
      assert t[1..] == rest;
    }
  }

  lemma {:induction false} EscapeDecodes(s: string)
    ensures DecodeBody(Escape(s) + "\"") == Some(s)
  {
    if s == [] {
    } else {
      calc {
        DecodeBody(Escape(s) + "\"");
        { assert Escape(s) + "\"" == EscapeChar(s[0]) + (Escape(s[1..]) + "\""); }
        DecodeBody(EscapeChar(s[0]) + (Escape(s[1..]) + "\""));
        { EscapeCharDecodes(s[0], Escape(s[1..]) + "\""); }
        Prepend(s[0], DecodeBody(Escape(s[1..]) + "\""));
        { EscapeDecodes(s[1..]); }
        Some([s[0]] + s[1..]);
      }
      assert [s[0]] + s[1..] == s;
    }
  }

  /** Round trip: decoding the literal `JSON.stringify` writes for `s` as a
      JSON string gives `s` back, so the literal is a valid JSON string. */
  lemma QuoteDecodes(s: string)
    ensures Decode(Quote(s)) == Some(s)
    ensures IsJsonString(Quote(s))
  {
    assert Quote(s)[1..] == Escape(s) + "\"";
    EscapeDecodes(s);
  }
}
