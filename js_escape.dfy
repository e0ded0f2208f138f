/**
 * jsEscape(str) = JSON.stringify(str + '').slice(1, -1): the body of a JSON
 * string literal. JSON.stringify escapes the quote and the backslash, writes
 * \b \t \n \f \r for those five control characters and \u00XX (lower-case
 * hexadecimal) for the other characters below U+0020, and leaves every other
 * character as it is. Unescape reads such a literal body back, as a
 * JavaScript engine does when it loads the generated module.
 */
module JsEscape {
  import opened Wrappers

  const HexDigits := "0123456789abcdef"

  function HexDigit(n: nat): char
    requires n < 16
  {
    HexDigits[n]
  }

  function HexValue(c: char): (r: Option<nat>)
    ensures r.Some? ==> r.value < 16
  {
    if '0' <= c <= '9' then Some(c as int - '0' as int)
    else if 'a' <= c <= 'f' then Some(c as int - 'a' as int + 10)
    else if 'A' <= c <= 'F' then Some(c as int - 'A' as int + 10)
    else None
  }

  /** How JSON.stringify writes one character inside a string literal. */
  function EscapeChar(c: char): (r: string)
    ensures 1 <= |r| <= 6
    ensures '\n' !in r && '\r' !in r
  {
    if c == '"' then "\\\""
    else if c == '\\' then "\\\\"
    else if c == '\U{0008}' then "\\b"
    else if c == '\t' then "\\t"
    else if c == '\n' then "\\n"
    else if c == '\U{000C}' then "\\f"
    else if c == '\r' then "\\r"
    else if (c as int) < 0x20 then "\\u00" + [HexDigit(c as int / 16), HexDigit(c as int % 16)]
    else [c]
  }

  /** jsEscape(str): every character becomes one to six characters. */
  function Escape(s: string): (r: string)
    ensures |s| <= |r| <= 6 * |s|
  {
    if |s| == 0 then "" else EscapeChar(s[0]) + Escape(s[1..])
  }

  /** The value of four hexadecimal digits, if they are digits. */
  function Hex4(s: string): (r: Option<nat>)
    requires |s| == 4
    ensures r.Some? ==> r.value < 0x10000
  {
    match (HexValue(s[0]), HexValue(s[1]), HexValue(s[2]), HexValue(s[3]))
    case (Some(a), Some(b), Some(c), Some(d)) => Some(((a * 16 + b) * 16 + c) * 16 + d)
    case _ => None
  }

  function Cons(c: char, rest: Option<string>): Option<string> {
    match rest
    case Some(r) => Some([c] + r)
    case None => None
  }

  /** The character a two-character escape \e stands for. */
  function SimpleEscape(e: char): Option<char> {
    if e == '"' || e == '\\' || e == '/' then Some(e)
    else if e == 'b' then Some('\U{0008}')
    else if e == 't' then Some('\t')
    else if e == 'n' then Some('\n')
    else if e == 'f' then Some('\U{000C}')
    else if e == 'r' then Some('\r')
    else None
  }

  /** The character a \uXXXX escape names; surrogates are not characters. */
  function UnicodeChar(digits: string): Option<char>
    requires |digits| == 4
  {
    match Hex4(digits)
    case Some(v) => if v < 0xD800 || 0xE000 <= v then Some(v as char) else None
    case None => None
  }

  /** Reads the body of a JSON string literal back into the string it denotes.
      None: the text is not such a body (a raw quote, backslash or control
      character, an unknown escape, or a \u escape naming a surrogate). */
  function Unescape(s: string): Option<string>
    decreases |s|
  {
    if |s| == 0 then Some("")
    else if s[0] == '\\' then
      if |s| < 2 then None
      else
        match SimpleEscape(s[1])
        case Some(c) => Cons(c, Unescape(s[2..]))
        case None =>
          if s[1] == 'u' && |s| >= 6 then
            match UnicodeChar(s[2..6])
            case Some(c) => Cons(c, Unescape(s[6..]))
            case None => None
          else None
    else if s[0] == '"' || (s[0] as int) < 0x20 then None
    else Cons(s[0], Unescape(s[1..]))
  }

  lemma HexDigitValue(n: nat)
    requires n < 16
    ensures HexValue(HexDigit(n)) == Some(n)
  {
  }

  /** A control character without a short escape is written \u00XX. */
  predicate NeedsUnicodeEscape(c: char) {
    (c as int) < 0x20 && c != '\U{0008}' && c != '\t' && c != '\n' && c != '\U{000C}' && c != '\r'
  }

  lemma UnescapeUnicodeEscape(c: char, rest: string)
    requires NeedsUnicodeEscape(c)
    ensures Unescape(EscapeChar(c) + rest) == Cons(c, Unescape(rest))
  {
    var hi, lo := c as int / 16, c as int % 16;
    HexDigitValue(hi);
    HexDigitValue(lo);
    var s := EscapeChar(c) + rest;
    assert s[..2] == "\\u";
    assert s[2..6] == ['0', '0', HexDigit(hi), HexDigit(lo)];
    assert Hex4(s[2..6]) == Some(c as int);
    assert UnicodeChar(s[2..6]) == Some(c);
    assert s[6..] == rest;
  }

  lemma UnescapeShortEscape(c: char, rest: string)
    requires c == '"' || c == '\\' || c == '\U{0008}' || c == '\t' || c == '\n' || c == '\U{000C}' || c == '\r'
    ensures Unescape(EscapeChar(c) + rest) == Cons(c, Unescape(rest))
  {
    var s := EscapeChar(c) + rest;
    assert s[0] == '\\' && SimpleEscape(s[1]) == Some(c);
    assert s[2..] == rest;
  }

  /** Reading back one escaped character consumes exactly its escape. */
  lemma UnescapeEscapeChar(c: char, rest: string)
    ensures Unescape(EscapeChar(c) + rest) == Cons(c, Unescape(rest))
  {
    if NeedsUnicodeEscape(c) {
      UnescapeUnicodeEscape(c, rest);
    } else if c == '"' || c == '\\' || c == '\U{0008}' || c == '\t' || c == '\n' || c == '\U{000C}' || c == '\r' {
      UnescapeShortEscape(c, rest);
    } else {
      assert EscapeChar(c) == [c];
      assert ([c] + rest)[1..] == rest;
    }
  }

  /** The generated module denotes exactly the text that was escaped. */
  lemma {:induction false} UnescapeEscape(s: string)
    ensures Unescape(Escape(s)) == Some(s)
  {
    if |s| > 0 {
      UnescapeEscape(s[1..]);
      UnescapeEscapeChar(s[0], Escape(s[1..]));
      assert [s[0]] + s[1..] == s;
    }
  }

  /** The escaped text never holds a raw '\n' or '\r', whatever the test
      body holds. */
  lemma {:induction false} EscapeHasNoLineBreak(s: string)
    ensures '\n' !in Escape(s) && '\r' !in Escape(s)
  {
    if |s| > 0 {
      EscapeHasNoLineBreak(s[1..]);
    }
  }

  /** JSON.stringify leaves the line and paragraph separators U+2028 and
      U+2029 as they are, though JavaScript counts them as line terminators. */
  lemma SeparatorsPassRaw()
    ensures Escape("\U{2028}") == "\U{2028}" && Escape("\U{2029}") == "\U{2029}"
  {
  }

  /** Escaping is injective: two bodies never produce the same literal. */
  lemma EscapeInjective(s: string, t: string)
    requires Escape(s) == Escape(t)
    ensures s == t
  {
    UnescapeEscape(s);
    UnescapeEscape(t);
  }
}
