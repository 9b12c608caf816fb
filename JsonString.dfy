/** JSON string literals as Python's `json.dumps` writes them with its default
    `ensure_ascii=True`: the quote, the backslash and the five control
    characters with short escapes get those; every other character outside
    printable ASCII becomes `\uXXXX` in lower-case hex, and characters beyond
    U+FFFF become a UTF-16 surrogate pair of two such escapes. The output is
    therefore printable ASCII. `Unescape` reads such a literal's body back. */
module JsonString {
  import opened Base
  import opened Text

  const Backspace: char := '\U{0008}'
  const FormFeed: char := '\U{000C}'

  predicate IsPrintableAscii(c: char) {
    ' ' <= c <= '~'
  }

  predicate AllPrintableAscii(s: string) {
    forall i :: 0 <= i < |s| ==> IsPrintableAscii(s[i])
  }

  lemma PrintableConcat(a: string, b: string)
    requires AllPrintableAscii(a) && AllPrintableAscii(b)
    ensures AllPrintableAscii(a + b)
  {
    assert forall i :: |a| <= i < |a + b| ==> (a + b)[i] == b[i - |a|];
  }

  /** Four lower-case hex digits of a 16-bit code unit. */
  function HexQuad(n: nat): (r: string)
    requires n < 0x10000
    ensures |r| == 4 && AllPrintableAscii(r)
  {
    
    [HexDigit(n / 0x1000), HexDigit(n / 0x100 % 16), HexDigit(n / 16 % 16), HexDigit(n % 16)]
  }

  function EscapeChar(c: char): (r: string)
    ensures |r| >= 1 && AllPrintableAscii(r)
  {
    if c == '"' then "\\\""
    else if c == '\\' then "\\\\"
    else if c == '\n' then "\\n"
    else if c == '\r' then "\\r"
    else if c == '\t' then "\\t"
    else if c == Backspace then "\\b"
    else if c == FormFeed then "\\f"
    else if IsPrintableAscii(c) then [c]
    else if c as int < 0x10000 then "\\u" + HexQuad(c as int)
    else
      // Python computes the halves with `|` and `&`; on these ranges that is `+`, `/` and `%`.
      var n := c as int - 0x10000;
      "\\u" + HexQuad(0xD800 + n / 0x400) + "\\u" + HexQuad(0xDC00 + n % 0x400)
  }

  function Escape(s: string): (r: string)
    ensures AllPrintableAscii(r)
  {
    if s == [] then ""
    else
      PrintableConcat(EscapeChar(s[0]), Escape(s[1..]));
      EscapeChar(s[0]) + Escape(s[1..])
  }

  /** The whole literal, quotes included. */
  function Quote(s: string): (r: string)
    ensures AllPrintableAscii(r) && |r| >= 2
  {
    PrintableConcat("\"", Escape(s));
    PrintableConcat("\"" + Escape(s), "\"");
    "\"" + Escape(s) + "\""
  }

  // ---------------------------------------------------------------------------
  // Reading a literal's body back

  function Cons(c: char, rest: Option<string>): Option<string> {
    match rest
    case None => None
    case Some(s) => Some([c] + s)
  }

  /** The value of four lower-case hex digits. */
  function QuadValue(t: string): (r: Option<nat>)
    requires |t| == 4
    ensures r.Some? ==> r.value < 0x10000
  {
    if HexValue(t[0]).Some? && HexValue(t[1]).Some? && HexValue(t[2]).Some? && HexValue(t[3]).Some? then
      Some(((HexValue(t[0]).value * 16 + HexValue(t[1]).value) * 16 + HexValue(t[2]).value) * 16
           + HexValue(t[3]).value)
    else None
  }

  lemma QuadValueHexQuad(n: nat)
    requires n < 0x10000
    ensures QuadValue(HexQuad(n)) == Some(n)
  {
    var a, b, c, d := n / 0x1000, n / 0x100 % 16, n / 16 % 16, n % 16;
    var q := [HexDigit(a), HexDigit(b), HexDigit(c), HexDigit(d)];
    assert HexQuad(n) == q;
    QuadOfDigits(a, b, c, d);
    var v := ((a * 16 + b) * 16 + c) * 16 + d;
    assert QuadValue(q) == Some(v);
    Nibbles(n, a, b, c, d);
  }

  lemma QuadOfDigits(a: nat, b: nat, c: nat, d: nat)
    requires a < 16 && b < 16 && c < 16 && d < 16
    ensures QuadValue([HexDigit(a), HexDigit(b), HexDigit(c), HexDigit(d)])
         == Some(((a * 16 + b) * 16 + c) * 16 + d)
  {
    var q := [HexDigit(a), HexDigit(b), HexDigit(c), HexDigit(d)];
    HexDigitValue(a);
    HexDigitValue(b);
    HexDigitValue(c);
    HexDigitValue(d);
    QuadValueOf(q, a, b, c, d);
  }

  lemma QuadValueOf(t: string, a: nat, b: nat, c: nat, d: nat)
    requires |t| == 4
    requires HexValue(t[0]) == Some(a) && HexValue(t[1]) == Some(b)
    requires HexValue(t[2]) == Some(c) && HexValue(t[3]) == Some(d)
    ensures QuadValue(t) == Some(((a * 16 + b) * 16 + c) * 16 + d)
  {
  }

  lemma Nibbles(n: nat, a: int, b: int, c: int, d: int)
    requires n < 0x10000
    requires a == n / 0x1000 && b == n / 0x100 % 16 && c == n / 16 % 16 && d == n % 16
    ensures ((a * 16 + b) * 16 + c) * 16 + d == n
  {
    assert n / 0x100 / 16 == n / 0x1000;
    assert n / 16 / 16 == n / 0x100;
    assert n / 0x100 == n / 0x1000 * 16 + n / 0x100 % 16;
    assert n / 16 == n / 0x100 * 16 + n / 16 % 16;
  }

  function Pair(hi: nat, lo: nat): (c: char)
    requires 0xD800 <= hi < 0xDC00 && 0xDC00 <= lo < 0xE000
  {
    ((hi - 0xD800) * 0x400 + (lo - 0xDC00) + 0x10000) as char
  }

  /** Decodes the body of a JSON string literal (without the quotes); None when
      it holds a bare quote, an unknown escape, or a lone surrogate. */
  function Unescape(t: string): Option<string>
    decreases |t|, 1
  {
    if t == [] then Some("")
    else if t[0] == '"' then None
    else if t[0] != '\\' then Cons(t[0], Unescape(t[1..]))
    else if |t| < 2 then None
    else if t[1] == '"' then Cons('"', Unescape(t[2..]))
    else if t[1] == '\\' then Cons('\\', Unescape(t[2..]))
    else if t[1] == '/' then Cons('/', Unescape(t[2..]))
    else if t[1] == 'n' then Cons('\n', Unescape(t[2..]))
    else if t[1] == 'r' then Cons('\r', Unescape(t[2..]))
    else if t[1] == 't' then Cons('\t', Unescape(t[2..]))
    else if t[1] == 'b' then Cons(Backspace, Unescape(t[2..]))
    else if t[1] == 'f' then Cons(FormFeed, Unescape(t[2..]))
    else if t[1] != 'u' then None
    else UnescapeUnicode(t)
  }

  /** A `\uXXXX` escape at the start of `t`, or a surrogate pair of two. */
  function UnescapeUnicode(t: string): Option<string>
    requires |t| >= 2
    decreases |t|, 0
  {
    if |t| < 6 then None
    else
      match QuadValue(t[2..6])
      case None => None
      case Some(q) =>
        if 0xD800 <= q < 0xDC00 then
          if |t| < 12 || t[6] != '\\' || t[7] != 'u' then None
          else
            match QuadValue(t[8..12])
            case None => None
            case Some(lo) =>
              if 0xDC00 <= lo < 0xE000 then Cons(Pair(q, lo), Unescape(t[12..])) else None
        else if 0xDC00 <= q < 0xE000 then None
        else Cons(q as char, Unescape(t[6..]))
  }

  lemma SurrogateHalves(c: char)
    requires c as int >= 0x10000
    ensures var n := c as int - 0x10000;
            0xD800 <= 0xD800 + n / 0x400 < 0xDC00 && 0xDC00 <= 0xDC00 + n % 0x400 < 0xE000 &&
            Pair(0xD800 + n / 0x400, 0xDC00 + n % 0x400) == c
  {
    var n := c as int - 0x10000;
    assert n / 0x400 * 0x400 + n % 0x400 == n;
  }

  /** One escaped character, followed by anything, reads back as that character. */
  lemma UnescapeEscapeChar(c: char, rest: string)
    ensures Unescape(EscapeChar(c) + rest) == Cons(c, Unescape(rest))
  {
    var t := EscapeChar(c) + rest;
    if c == '"' || c == '\\' || c == '\n' || c == '\r' || c == '\t' || c == Backspace || c == FormFeed {
      assert t[2..] == rest;
    } else if IsPrintableAscii(c) {
      assert t[1..] == rest;
    } else if c as int < 0x10000 {
      UnescapeBmp(c, rest);
    } else {
      UnescapeAstral(c, rest);
    }
  }

  lemma UnescapeUnit(t: string, q: nat)
    requires |t| >= 6 && t[0] == '\\' && t[1] == 'u' && QuadValue(t[2..6]) == Some(q)
    requires !(0xD800 <= q < 0xE000)
    ensures Unescape(t) == Cons(q as char, Unescape(t[6..]))
  {
    assert Unescape(t) == UnescapeUnicode(t);
  }

  lemma UnescapePair(t: string, hi: nat, lo: nat)
    requires |t| >= 12 && t[0] == '\\' && t[1] == 'u' && t[6] == '\\' && t[7] == 'u'
    requires QuadValue(t[2..6]) == Some(hi) && QuadValue(t[8..12]) == Some(lo)
    requires 0xD800 <= hi < 0xDC00 && 0xDC00 <= lo < 0xE000
    ensures Unescape(t) == Cons(Pair(hi, lo), Unescape(t[12..]))
  {
    assert Unescape(t) == UnescapeUnicode(t);
  }

  lemma UnescapeBmp(c: char, rest: string)
    requires !IsPrintableAscii(c) && c as int < 0x10000
    requires c != '\n' && c != '\r' && c != '\t' && c != Backspace && c != FormFeed
    ensures Unescape(EscapeChar(c) + rest) == Cons(c, Unescape(rest))
  {
    var q := HexQuad(c as int);
    var t := "\\u" + q + rest;
    assert EscapeChar(c) + rest == t;
    assert t[2..6] == q;
    assert t[6..] == rest;
    QuadValueHexQuad(c as int);
    UnescapeUnit(t, c as int);
  }

  lemma UnescapeAstral(c: char, rest: string)
    requires c as int >= 0x10000
    ensures Unescape(EscapeChar(c) + rest) == Cons(c, Unescape(rest))
  {
    var n := c as int - 0x10000;
    var hi, lo := 0xD800 + n / 0x400, 0xDC00 + n % 0x400;
    SurrogateHalves(c);
    EscapeAstral(c);
    var t := "\\u" + HexQuad(hi) + "\\u" + HexQuad(lo) + rest;
    TwoEscapes(HexQuad(hi), HexQuad(lo), rest);
    QuadValueHexQuad(hi);
    QuadValueHexQuad(lo);
    UnescapePair(t, hi, lo);
  }

  lemma EscapeAstral(c: char)
    requires c as int >= 0x10000
    ensures var n := c as int - 0x10000;
      EscapeChar(c) == "\\u" + HexQuad(0xD800 + n / 0x400) + "\\u" + HexQuad(0xDC00 + n % 0x400)
  {
  }

  /** Where the pieces of two consecutive `\u` escapes sit. */
  lemma TwoEscapes(a: string, b: string, rest: string)
    requires |a| == 4 && |b| == 4
    ensures var t := "\\u" + a + "\\u" + b + rest;
      |t| >= 12 && t[0] == '\\' && t[1] == 'u' && t[2..6] == a && t[6] == '\\' && t[7] == 'u' &&
      t[8..12] == b && t[12..] == rest
  {
  }

  /** Escaping loses nothing: the literal's body reads back as the string. */
  lemma {:induction false} UnescapeEscape(s: string)
    ensures Unescape(Escape(s)) == Some(s)
  {
    if s != [] {
      UnescapeEscapeChar(s[0], Escape(s[1..]));
      UnescapeEscape(s[1..]);
      assert [s[0]] + s[1..] == s;
    }
  }
}
