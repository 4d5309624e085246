/**
 * `repr()` of a Python string, as it appears in the validator's error message
 * (`"Invalid IP address: {!r}"`), with a decoder that reads it back.
 */
module PyRepr {
  import opened Wrappers

  /** The quote `repr` puts around `s`: double quotes only when `s` has a single quote and no double quote. */
  function QuoteFor(s: string): (q: char)
    ensures q == '\'' || q == '"'
    ensures q == '"' <==> '\'' in s && '"' !in s
  {
    if '\'' in s && '"' !in s then '"' else '\''
  }

  /** The ASCII control characters that `repr` writes as `\xhh`. */
  predicate IsHexEscaped(c: char) {
    c != '\t' && c != '\n' && c != '\r' && (c as int < 0x20 || c as int == 0x7f)
  }

  function HexDigit(d: nat): char
    requires d < 16
  {
    if d < 10 then (d + '0' as int) as char else (d - 10 + 'a' as int) as char
  }

  function HexValue(c: char): Option<nat> {
    if '0' <= c <= '9' then Some(c as int - '0' as int)
    else if 'a' <= c <= 'f' then Some(c as int - 'a' as int + 10)
    else None
  }

  lemma HexDigitValue(d: nat)
    requires d < 16
    ensures HexValue(HexDigit(d)) == Some(d)
  {
  }

  /** How `repr` writes one character when the string is quoted with `q`. */
  function EscapeChar(c: char, q: char): string {
    if c == q || c == '\\' then ['\\', c]
    else if c == '\t' then "\\t"
    else if c == '\n' then "\\n"
    else if c == '\r' then "\\r"
    else if IsHexEscaped(c) then ['\\', 'x', HexDigit(c as int / 16), HexDigit(c as int % 16)]
    else [c]
  }

  function Escaped(s: string, q: char): string {
    if s == [] then [] else EscapeChar(s[0], q) + Escaped(s[1..], q)
  }

  /** `repr(s)` for a string `s`. */
  function Repr(s: string): (r: string)
    ensures |r| >= |s| + 2
    ensures r[0] == r[|r| - 1] == QuoteFor(s)
  {
    var q := QuoteFor(s);
    EscapedLength(s, q);
    [q] + Escaped(s, q) + [q]
  }

  lemma {:induction false} EscapedLength(s: string, q: char)
    ensures |Escaped(s, q)| >= |s|
  {
    if s != [] {
      EscapedLength(s[1..], q);
    }
  }

  function Prepend(c: char, rest: Option<string>): Option<string> {
    match rest
    case None => None
    case Some(t) => Some([c] + t)
  }

  /** Reads the inside of a string literal quoted with `q`; `None` when it is malformed. */
  function Unescape(t: string, q: char): Option<string>
    decreases |t|
  {
    if t == [] then Some([])
    else if t[0] == '\\' then
      if |t| < 2 then None
      else if t[1] == 't' then Prepend('\t', Unescape(t[2..], q))
      else if t[1] == 'n' then Prepend('\n', Unescape(t[2..], q))
      else if t[1] == 'r' then Prepend('\r', Unescape(t[2..], q))
      else if t[1] == '\\' || t[1] == q then Prepend(t[1], Unescape(t[2..], q))
      else if t[1] == 'x' && |t| >= 4 && HexValue(t[2]).Some? && HexValue(t[3]).Some? then
        Prepend((16 * HexValue(t[2]).value + HexValue(t[3]).value) as char, Unescape(t[4..], q))
      else None
    else if t[0] == q then None
    else Prepend(t[0], Unescape(t[1..], q))
  }

  /** Reads back a quoted string literal as `repr` writes it. */
  function Unrepr(r: string): Option<string> {
    if |r| >= 2 && (r[0] == '\'' || r[0] == '"') && r[|r| - 1] == r[0] then
      Unescape(r[1..|r| - 1], r[0])
    else
      None
  }

  lemma EscapeCharThenRest(c: char, q: char, rest: string)
    requires q == '\'' || q == '"'
    ensures Unescape(EscapeChar(c, q) + rest, q) == Prepend(c, Unescape(rest, q))
  {
    var t := EscapeChar(c, q) + rest;
    if c == q || c == '\\' {
      assert t[2..] == rest;
    } else if c == '\t' || c == '\n' || c == '\r' {
      assert t[2..] == rest;
    } else if IsHexEscaped(c) {
      var hi, lo := c as int / 16, c as int % 16;
      HexDigitValue(hi);
      HexDigitValue(lo);
      assert t[2] == HexDigit(hi) && t[3] == HexDigit(lo);
      assert t[4..] == rest;
      assert (16 * hi + lo) as char == c;
    } else {
      assert t[1..] == rest;
    }
  }

  lemma {:induction false} UnescapeEscaped(s: string, q: char)
    requires q == '\'' || q == '"'
    ensures Unescape(Escaped(s, q), q) == Some(s)
  {
    if s != [] {
      EscapeCharThenRest(s[0], q, Escaped(s[1..], q));
      UnescapeEscaped(s[1..], q);
      assert [s[0]] + s[1..] == s;
    }
  }

  /** `repr` loses nothing: the literal it writes reads back as the original string. */
  lemma ReprRoundTrip(s: string)
    ensures Unrepr(Repr(s)) == Some(s)
  {
    var q := QuoteFor(s);
    var r := Repr(s);
    assert r[1..|r| - 1] == Escaped(s, q);
    UnescapeEscaped(s, q);
  }
}
