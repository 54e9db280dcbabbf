/**
 * JSON string literals as Python's `json.dumps` writes them for a `str`
 * with its default `ensure_ascii`: every character outside printable
 * ASCII, and the quote and backslash, is written as an escape sequence of
 * section 7 of RFC 8259; a character above U+FFFF becomes a UTF-16
 * surrogate pair of `\u` escapes. `Unescape` is the reading side of the
 * same section, and the two are proved inverse.
 */
module JsonString {
  import opened Wrappers

  /** Printable ASCII, the only characters the escaped form contains. */
  predicate IsPrintable(c: char) { ' ' <= c <= '~' }

  // ---------------------------------------------------------------------
  // hexadecimal
  // ---------------------------------------------------------------------

  /** Lower-case hexadecimal digit, as `'{0:04x}'` uses. */
  function HexDigit(d: nat): (c: char)
    requires d < 16
    ensures IsPrintable(c)
  {
    if d < 10 then ('0' as int + d) as char else ('a' as int + d - 10) as char
  }

  /** Value of a hexadecimal digit of either case; RFC 8259 accepts both. */
  function HexValue(c: char): Option<nat> {
    if '0' <= c <= '9' then Some(c as int - '0' as int)
    else if 'a' <= c <= 'f' then Some(c as int - 'a' as int + 10)
    else if 'A' <= c <= 'F' then Some(c as int - 'A' as int + 10)
    else None
  }

  function Pow16(k: nat): (p: nat)
    ensures p > 0
  {
    if k == 0 then 1 else 16 * Pow16(k - 1)
  }

  /** `n` written with exactly `k` hexadecimal digits, most significant first. */
  function Hex(n: nat, k: nat): (r: string)
    ensures |r| == k
    ensures forall i :: 0 <= i < |r| ==> IsPrintable(r[i]) && HexValue(r[i]).Some?
  {
    if k == 0 then [] else Hex(n / 16, k - 1) + [HexDigit(n % 16)]
  }

  /** The value of a string of hexadecimal digits, or None when one is not a digit. */
  function ParseHex(s: string): (r: Option<nat>)
    ensures r.Some? ==> r.value < Pow16(|s|)
  {
    if |s| == 0 then Some(0)
    else
      match (ParseHex(s[..|s| - 1]), HexValue(s[|s| - 1]))
      case (Some(high), Some(low)) => Some(16 * high + low)
      case _ => None
  }

  /** Reading the digits back gives the number, when it fits in `k` digits. */
  lemma {:induction false} ParseHexOfHex(n: nat, k: nat)
    requires n < Pow16(k)
    ensures ParseHex(Hex(n, k)) == Some(n)
  {
    if k > 0 {
      var h := Hex(n, k);
      assert h[..|h| - 1] == Hex(n / 16, k - 1);
      ParseHexOfHex(n / 16, k - 1);
      var d := n % 16;
      assert HexValue(HexDigit(d)) == Some(d);
    }
  }

  // ---------------------------------------------------------------------
  // escaping
  // ---------------------------------------------------------------------

  /** `\u` followed by four lower-case hexadecimal digits. */
  function UnicodeEscape(n: nat): (r: string)
    requires n < 0x10000
    ensures |r| == 6 && r[0] == '\\' && r[1] == 'u'
    ensures forall i :: 0 <= i < |r| ==> IsPrintable(r[i])
  {
    "\\u" + Hex(n, 4)
  }

  /** The escaped form of one character. */
  function EscapeChar(c: char): (r: string)
    ensures |r| > 0
    ensures forall i :: 0 <= i < |r| ==> IsPrintable(r[i])
    ensures IsPrintable(c) && c != '"' && c != '\\' ==> r == [c]
  {
    if c == '"' then "\\\""
    else if c == '\\' then "\\\\"
    else if c == '\n' then "\\n"
    else if c == '\r' then "\\r"
    else if c == '\t' then "\\t"
    else if c == '\U{8}' then "\\b"
    else if c == '\U{C}' then "\\f"
    else if IsPrintable(c) then [c]
    else if c as int < 0x10000 then UnicodeEscape(c as int)
    else
      var n := c as int - 0x10000;
      UnicodeEscape(0xD800 + n / 1024) + UnicodeEscape(0xDC00 + n % 1024)
  }

  /** The escaped form of a string, character by character. */
  function Escape(s: string): (r: string)
    ensures |r| >= |s|
    ensures forall i :: 0 <= i < |r| ==> IsPrintable(r[i])
  {
    if |s| == 0 then "" else EscapeChar(s[0]) + Escape(s[1..])
  }

  /** `json.dumps(s)` for a string: the escaped form between quotes. */
  function Quote(s: string): (r: string)
    ensures |r| >= 2 && r[0] == '"' && r[|r| - 1] == '"'
    ensures r[1..|r| - 1] == Escape(s)
    ensures forall i :: 0 <= i < |r| ==> IsPrintable(r[i])
  {
    "\"" + Escape(s) + "\""
  }

  /** Printable ASCII without a quote or backslash is written as it is. */
  lemma {:induction false} EscapePlain(s: string)
    requires forall i :: 0 <= i < |s| ==> IsPrintable(s[i]) && s[i] != '"' && s[i] != '\\'
    ensures Escape(s) == s
  {
    if |s| > 0 {
      EscapePlain(s[1..]);
    }
  }

  // ---------------------------------------------------------------------
  // reading back
  // ---------------------------------------------------------------------

  /** The character a two-character escape `\x` stands for. */
  function ShortEscape(x: char): Option<char> {
    if x == '"' then Some('"')
    else if x == '\\' then Some('\\')
    else if x == '/' then Some('/')
    else if x == 'b' then Some('\U{8}')
    else if x == 'f' then Some('\U{C}')
    else if x == 'n' then Some('\n')
    else if x == 'r' then Some('\r')
    else if x == 't' then Some('\t')
    else None
  }

  /** The code unit of a `\uXXXX` escape at the start of `t`. */
  function UnitAt(t: string): (r: Option<nat>)
    ensures r.Some? ==> r.value < 0x10000
  {
    if |t| >= 6 && t[0] == '\\' && t[1] == 'u' then
      assert Pow16(2) == 256 && Pow16(4) == 0x10000;
      ParseHex(t[2..6])
    else None
  }

  /**
   * The first character of the body of a JSON string, section 7 of
   * RFC 8259, and how many characters its text takes: a quote or a control
   * character must not appear unescaped, a high surrogate escape must be
   * followed by a low one, and a lone low surrogate is rejected.
   */
  function DecodeOne(t: string): (r: Option<(char, nat)>)
    requires |t| > 0
    ensures r.Some? ==> 0 < r.value.1 <= |t|
  {
    if t[0] != '\\' then
      if t[0] == '"' || t[0] < ' ' then None else Some((t[0], 1))
    else if |t| < 2 then None
    else if t[1] != 'u' then
      match ShortEscape(t[1])
      case Some(c) => Some((c, 2))
      case None => None
    else
      match UnitAt(t)
      case None => None
      case Some(u) =>
        if u < 0xD800 || 0xE000 <= u then Some((u as char, 6))
        else if 0xDC00 <= u then None
        else
          match UnitAt(t[6..])
          case Some(l) =>
            if 0xDC00 <= l < 0xE000 then Some(((0x10000 + (u - 0xD800) * 1024 + (l - 0xDC00)) as char, 12))
            else None
          case None => None
  }

  /** The characters of a whole string body, or None when some part of it is not allowed. */
  function Unescape(t: string): (r: Option<string>)
    decreases |t|
  {
    if |t| == 0 then Some("")
    else
      match DecodeOne(t)
      case Some((c, n)) => Prepend(c, Unescape(t[n..]))
      case None => None
  }

  function Prepend(c: char, r: Option<string>): Option<string> {
    if r.Some? then Some([c] + r.value) else None
  }

  /**
   * A string body read up to its closing quote: the characters and what
   * follows the quote, or None when the quote is missing or some part of
   * the body is not allowed.
   */
  function ReadBody(t: string): (r: Option<(string, string)>)
    ensures r.Some? ==> |r.value.1| < |t|
    decreases |t|
  {
    if |t| == 0 then None
    else if t[0] == '"' then Some(("", t[1..]))
    else
      match DecodeOne(t)
      case None => None
      case Some((c, n)) =>
        match ReadBody(t[n..])
        case None => None
        case Some((v, rest)) => Some(([c] + v, rest))
  }

  /** A JSON string at the start of `t`: its characters and what follows it. */
  function ReadString(t: string): (r: Option<(string, string)>)
    ensures r.Some? ==> |r.value.1| < |t|
  {
    if |t| > 0 && t[0] == '"' then ReadBody(t[1..]) else None
  }

  lemma UnitAtEscape(n: nat, rest: string)
    requires n < 0x10000
    ensures UnitAt(UnicodeEscape(n) + rest) == Some(n)
  {
    var t := UnicodeEscape(n) + rest;
    assert t[2..6] == Hex(n, 4);
    ParseHexOfHex(n, 4);
  }

  /** A character above U+FFFF is written as a surrogate pair, which decodes to it, whatever follows. */
  lemma DecodePair(c: char, rest: string)
    requires !IsPrintable(c) && c as int >= 0x10000
    ensures DecodeOne(EscapeChar(c) + rest) == Some((c, |EscapeChar(c)|))
  {
    var t := EscapeChar(c) + rest;
    var n := c as int - 0x10000;
    var hi := 0xD800 + n / 1024;
    var lo := 0xDC00 + n % 1024;
    assert t == UnicodeEscape(hi) + (UnicodeEscape(lo) + rest);
    UnitAtEscape(hi, UnicodeEscape(lo) + rest);
    assert t[6..] == UnicodeEscape(lo) + rest;
    UnitAtEscape(lo, rest);
    assert 0x10000 + (hi - 0xD800) * 1024 + (lo - 0xDC00) == c as int;
  }

  /** The text of one escaped character decodes to that character, whatever follows it. */
  lemma DecodeEscapeChar(c: char, rest: string)
    ensures DecodeOne(EscapeChar(c) + rest) == Some((c, |EscapeChar(c)|))
  {
    if c == '"' || c == '\\' || c == '\n' || c == '\r' || c == '\t' || c == '\U{8}' || c == '\U{C}' {
    } else if IsPrintable(c) {
    } else if c as int < 0x10000 {
      UnitAtEscape(c as int, rest);
    } else {
      DecodePair(c, rest);
    }
  }

  /** One more escaped character in front of a body adds that character to what is read. */
  lemma ReadBodyNext(c: char, t: string, v: string, rest: string)
    requires ReadBody(t) == Some((v, rest))
    ensures ReadBody(EscapeChar(c) + t) == Some(([c] + v, rest))
  {
    var u := EscapeChar(c) + t;
    DecodeEscapeChar(c, t);
    assert u[|EscapeChar(c)|..] == t;
  }

  /** Reading back one escaped character and then the rest. */
  lemma UnescapeChar(c: char, rest: string)
    ensures Unescape(EscapeChar(c) + rest) == Prepend(c, Unescape(rest))
  {
    var t := EscapeChar(c) + rest;
    DecodeEscapeChar(c, rest);
    assert t[|EscapeChar(c)|..] == rest;
  }

  /** What `json.dumps` writes reads back as the original string. */
  lemma {:induction false} UnescapeEscape(s: string)
    ensures Unescape(Escape(s)) == Some(s)
  {
    if |s| > 0 {
      UnescapeChar(s[0], Escape(s[1..]));
      UnescapeEscape(s[1..]);
      assert [s[0]] + s[1..] == s;
    }
  }

  /** An escaped body followed by its closing quote reads back as the string, and the reading stops at that quote. */
  lemma {:induction false} ReadBodyEscape(s: string, after: string)
    requires |after| > 0 && after[0] == '"'
    ensures ReadBody(Escape(s) + after) == Some((s, after[1..]))
  {
    if |s| > 0 {
      var tail := Escape(s[1..]) + after;
      assert Escape(s) == EscapeChar(s[0]) + Escape(s[1..]);
      assert Escape(s) + after == EscapeChar(s[0]) + tail;
      ReadBodyEscape(s[1..], after);
      ReadBodyNext(s[0], tail, s[1..], after[1..]);
      assert [s[0]] + s[1..] == s;
    } else {
      assert Escape(s) + after == after;
    }
  }

  /** What `json.dumps` writes for a string is read back as that string, and the reading ends just after it. */
  lemma ReadStringQuote(s: string, rest: string)
    ensures ReadString(Quote(s) + rest) == Some((s, rest))
  {
    var after := "\"" + rest;
    var t := Quote(s) + rest;
    assert t[1..] == Escape(s) + after;
    ReadBodyEscape(s, after);
    assert after[1..] == rest;
  }

  /** Different strings are written differently. */
  lemma QuoteInjective(s: string, t: string)
    requires Quote(s) == Quote(t)
    ensures s == t
  {
    UnescapeEscape(s);
    UnescapeEscape(t);
  }
}
