/**
  `JSON.stringify` applied to a string, and a decoder of JSON string literals
  as section 7 of RFC 8259 defines them, so that the encoding can be read
  back. Dafny characters are Unicode scalar values, so a lone surrogate (which
  `JSON.stringify` would escape as `\udXXX`) cannot occur.
 */
module JsonString {

  import opened Wrappers

  const HexDigits: string := "0123456789abcdef"

  /** The two lower-case hexadecimal digits of a byte. */
  function Hex2(n: nat): (r: string)
    requires n < 256
    ensures |r| == 2 && r[0] in HexDigits && r[1] in HexDigits
  {
    [HexDigits[n / 16], HexDigits[n % 16]]
  }

  /** How `JSON.stringify` writes one character inside the quotes. */
  function EscapeChar(c: char): (r: string)
    ensures |r| >= 1
  {
    if c == '"' then "\\\""
    else if c == '\\' then "\\\\"
    else if c == '\U{8}' then "\\b"
    else if c == '\U{C}' then "\\f"
    else if c == '\n' then "\\n"
    else if c == '\r' then "\\r"
    else if c == '\t' then "\\t"
    else if (c as int) < 0x20 then "\\u00" + Hex2(c as int)
    else [c]
  }

  function Escape(s: string): string
    decreases |s|
  {
    if s == [] then "" else EscapeChar(s[0]) + Escape(s[1..])
  }

  /** `JSON.stringify(s)` for a string `s`. */
  function Quote(s: string): (r: string)
    ensures |r| >= 2 && r[0] == '"' && r[|r| - 1] == '"'
  {
    "\"" + Escape(s) + "\""
  }

  // ---------------------------------------------------------------------------
  // The decoder of section 7 of RFC 8259

  /** The value of a hexadecimal digit, in either case. */
  function HexValue(c: char): (r: Option<nat>)
    ensures r.Some? ==> r.value < 16
  {
    if '0' <= c <= '9' then Some(c as int - '0' as int)
    else if 'a' <= c <= 'f' then Some(c as int - 'a' as int + 10)
    else if 'A' <= c <= 'F' then Some(c as int - 'A' as int + 10)
    else None
  }

  /** The code unit written by four hexadecimal digits. */
  function Hex4(t: string): (r: Option<nat>)
    requires |t| == 4
    ensures r.Some? ==> r.value < 0x10000
  {
    var a, b, c, d := HexValue(t[0]), HexValue(t[1]), HexValue(t[2]), HexValue(t[3]);
    if a.Some? && b.Some? && c.Some? && d.Some? then
      Some(((a.value * 16 + b.value) * 16 + c.value) * 16 + d.value)
    else None
  }

  function Prepend(c: char, rest: Option<string>): Option<string> {
    match rest
    case None => None
    case Some(s) => Some([c] + s)
  }

  /** The character a two-character escape `\x` stands for. */
  function ShortEscape(x: char): Option<char> {
    if x == '"' then Some('"')
    else if x == '\\' then Some('\\')
    else if x == '/' then Some('/')
    else if x == 'b' then Some('\U{8}')
    else if x == 'f' then Some('\U{C}')
    else if x == 'n' then Some('\n')
    else if x == 'r' then Some('\r')
    else if x == 't' then Some('\t')
    else None
  }

  /**
    The characters between the quotes of a string literal: unescaped
    characters other than `"`, `\` and the control characters, and escapes.
    A `\u` escape of a surrogate code unit is not decoded here.
   */
  function Unescape(t: string): Option<string>
    decreases |t|
  {
    if t == [] then Some("")
    else if t[0] == '\\' then
      if |t| < 2 then None
      else if t[1] == 'u' then
        if |t| < 6 then None
        else match Hex4(t[2..6])
          case None => None
          case Some(u) =>
            if 0xD800 <= u < 0xE000 then None else Prepend(u as char, Unescape(t[6..]))
      else match ShortEscape(t[1])
        case None => None
        case Some(c) => Prepend(c, Unescape(t[2..]))
    else if t[0] == '"' || (t[0] as int) < 0x20 then None
    else Prepend(t[0], Unescape(t[1..]))
  }

  /** The string a JSON string literal denotes, if `t` is one. */
  function Unquote(t: string): Option<string> {
    if |t| >= 2 && t[0] == '"' && t[|t| - 1] == '"' then Unescape(t[1..|t| - 1]) else None
  }

  lemma HexDigitValue(n: nat)
    requires n < 16
    ensures HexValue(HexDigits[n]) == Some(n)
  {
  }

  /** `00` and two digits of values `hi` and `lo` decode to the byte `hi lo`. */
  lemma HexPairDecodes(t: string, hi: nat, lo: nat)
    requires |t| == 4 && t[0] == '0' && t[1] == '0'
    requires HexValue(t[2]) == Some(hi) && HexValue(t[3]) == Some(lo)
    ensures Hex4(t) == Some(hi * 16 + lo)
  {
  }

  lemma Hex2Decodes(n: nat)
    requires n < 256
    ensures Hex4("00" + Hex2(n)) == Some(n)
  {
    var hi, lo := n / 16, n % 16;
    var t := "00" + Hex2(n);
    assert t[0] == '0' && t[1] == '0' && t[2] == HexDigits[hi] && t[3] == HexDigits[lo];
    HexDigitValue(hi);
    HexDigitValue(lo);
    HexPairDecodes(t, hi, lo);
    assert hi * 16 + lo == n;
  }

  /** The characters `JSON.stringify` writes as a backslash and a letter. */
  predicate HasShortEscape(c: char) {
    c == '"' || c == '\\' || c == '\U{8}' || c == '\U{C}' || c == '\n' || c == '\r' || c == '\t'
  }

  /** A two-character escape decodes back to its character. */
  lemma ShortEscapeDecodes(c: char, rest: string)
    requires HasShortEscape(c)
    ensures Unescape(EscapeChar(c) + rest) == Prepend(c, Unescape(rest))
  {
    var t := EscapeChar(c) + rest;
    assert t[0] == '\\' && t[1] != 'u' && ShortEscape(t[1]) == Some(c);
    assert t[2..] == rest;
  }

  /** A `\u00XX` escape of a control character decodes back to it. */
  lemma ControlEscapeDecodes(c: char, rest: string)
    requires !HasShortEscape(c) && (c as int) < 0x20
    ensures Unescape(EscapeChar(c) + rest) == Prepend(c, Unescape(rest))
  {
    var h := Hex2(c as int);
    assert EscapeChar(c) == "\\u00" + h;
    UnicodeEscapeParts(h, rest);
    Hex2Decodes(c as int);
  }

  /** The parts the decoder reads from `\u00` and two digits. */
  lemma UnicodeEscapeParts(h: string, rest: string)
    requires |h| == 2
    ensures var t := "\\u00" + h + rest;
      t[0] == '\\' && t[1] == 'u' && t[2..6] == "00" + h && t[6..] == rest
  {
    var t := "\\u00" + h + rest;
    assert t[2..6] == ['0', '0', h[0], h[1]];
  }

  /** The escape of one character decodes back to it, whatever follows. */
  lemma {:induction false} EscapeCharDecodes(c: char, rest: string)
    ensures Unescape(EscapeChar(c) + rest) == Prepend(c, Unescape(rest))
  {
    if HasShortEscape(c) {
      ShortEscapeDecodes(c, rest);
    } else if (c as int) < 0x20 {
      ControlEscapeDecodes(c, rest);
    } else {
      assert (EscapeChar(c) + rest)[1..] == rest;
    }
  }

  /** Decoding the escaped text gives back the original string. */
  lemma {:induction false} EscapeDecodes(s: string)
    ensures Unescape(Escape(s)) == Some(s)
    decreases |s|
  {
    if s != [] {
      EscapeCharDecodes(s[0], Escape(s[1..]));
      EscapeDecodes(s[1..]);
      assert [s[0]] + s[1..] == s;
    }
  }

  /** `JSON.stringify` of a string is a JSON string literal that denotes that string. */
  lemma QuoteRoundTrip(s: string)
    ensures Unquote(Quote(s)) == Some(s)
  {
    var q := Quote(s);
    assert q[1..|q| - 1] == Escape(s);
    EscapeDecodes(s);
  }

  /** Distinct strings are stringified differently. */
  lemma QuoteInjective(s: string, t: string)
    requires Quote(s) == Quote(t)
    ensures s == t
  {
    QuoteRoundTrip(s);
    QuoteRoundTrip(t);
  }
}
