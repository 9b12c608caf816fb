/** String helpers the identity and client code use through Python built-ins:
    `bytes.hex` / `hexdigest` / `secrets.token_hex` (lower-case hex),
    `str(int)` (decimal), and `str.lstrip` / `str.rstrip` with one character. */
module Text {
  import opened Base

  /** `0`-`9` then `a`-`f`. */
  function HexDigit(k: nat): (c: char)
    requires k < 16
    ensures IsHexDigit(c)
  {
    if k < 10 then ('0' as int + k) as char else ('a' as int + k - 10) as char
  }

  predicate IsHexDigit(c: char) {
    '0' <= c <= '9' || 'a' <= c <= 'f'
  }

  predicate IsDecimalDigit(c: char) {
    '0' <= c <= '9'
  }

  // ---------------------------------------------------------------------------
  // Lower-case hexadecimal, two characters per byte, high nibble first

  function Hex(bs: seq<byte>): (r: string)
    ensures |r| == 2 * |bs|
    ensures forall i :: 0 <= i < |r| ==> IsHexDigit(r[i])
  {
    if bs == [] then ""
    else [HexDigit(bs[0] as int / 16), HexDigit(bs[0] as int % 16)] + Hex(bs[1..])
  }

  /** The value of one hex digit, or None for any other character. */
  function HexValue(c: char): (r: Option<nat>)
    ensures r.Some? <==> IsHexDigit(c)
    ensures r.Some? ==> r.value < 16 && HexDigit(r.value) == c
  {
    if '0' <= c <= '9' then Some(c as int - '0' as int)
    else if 'a' <= c <= 'f' then Some(c as int - 'a' as int + 10)
    else None
  }

  /** Reads back a lower-case hex string; None when the length is odd or a
      character is not a hex digit. */
  function UnHex(s: string): Option<seq<byte>>
    decreases |s|
  {
    if |s| == 0 then Some([])
    else if |s| == 1 then None
    else if HexValue(s[0]).None? || HexValue(s[1]).None? then None
    else
      match UnHex(s[2..])
      case None => None
      case Some(rest) => Some([(HexValue(s[0]).value * 16 + HexValue(s[1]).value) as byte] + rest)
  }

  lemma HexDigitValue(k: nat)
    requires k < 16
    ensures HexValue(HexDigit(k)) == Some(k)
  {
  }

  /** Hex encoding loses nothing: reading it back gives the bytes. */
  lemma {:induction false} UnHexHex(bs: seq<byte>)
    ensures UnHex(Hex(bs)) == Some(bs)
  {
    if bs != [] {
      var h := Hex(bs);
      var b := bs[0] as int;
      assert h[0] == HexDigit(b / 16) && h[1] == HexDigit(b % 16);
      assert h[2..] == Hex(bs[1..]);
      HexDigitValue(b / 16);
      HexDigitValue(b % 16);
      UnHexHex(bs[1..]);
      assert (b / 16 * 16 + b % 16) as byte == bs[0];
      assert [bs[0]] + bs[1..] == bs;
    }
  }

  /** The first 2k hex characters encode exactly the first k bytes. */
  lemma {:induction false} HexPrefix(bs: seq<byte>, k: nat)
    requires k <= |bs|
    ensures Hex(bs)[..2 * k] == Hex(bs[..k])
  {
    if k > 0 {
      HexPrefix(bs[1..], k - 1);
      assert bs[..k][1..] == bs[1..][..k - 1];
    }
  }

  // ---------------------------------------------------------------------------
  // Decimal text of an integer, as Python's `str(int)` writes it

  function NatRepr(n: nat): (r: string)
    ensures |r| >= 1
    ensures forall i :: 0 <= i < |r| ==> IsDecimalDigit(r[i])
    ensures r[0] == '0' ==> n == 0
  {
    if n < 10 then [DecimalDigit(n)] else NatRepr(n / 10) + [DecimalDigit(n % 10)]
  }

  function DecimalDigit(d: nat): (c: char)
    requires d < 10
    ensures IsDecimalDigit(c)
  {
    ('0' as int + d) as char
  }

  function IntRepr(i: int): (r: string)
    ensures |r| >= 1
  {
    if i < 0 then "-" + NatRepr(-i) else NatRepr(i)
  }

  function DigitValue(c: char): int {
    c as int - '0' as int
  }

  function ParseDigits(s: string): nat
    requires forall i :: 0 <= i < |s| ==> IsDecimalDigit(s[i])
  {
    if s == [] then 0
    else
      assert IsDecimalDigit(s[|s| - 1]);
      ParseDigits(s[..|s| - 1]) * 10 + DigitValue(s[|s| - 1])
  }

  /** Reads an optionally negative, non-empty run of decimal digits. */
  function ParseInt(s: string): Option<int> {
    if |s| >= 2 && s[0] == '-' && forall i :: 1 <= i < |s| ==> IsDecimalDigit(s[i]) then
      var magnitude: int := ParseDigits(s[1..]);
      Some(-magnitude)
    else if |s| >= 1 && forall i :: 0 <= i < |s| ==> IsDecimalDigit(s[i]) then
      Some(ParseDigits(s))
    else None
  }

  lemma {:induction false} ParseNatRepr(n: nat)
    ensures ParseDigits(NatRepr(n)) == n
  {
    var r := NatRepr(n);
    if n < 10 {
      assert DigitValue(DecimalDigit(n)) == n;
    } else {
      ParseNatRepr(n / 10);
      assert r[..|r| - 1] == NatRepr(n / 10);
      assert DigitValue(DecimalDigit(n % 10)) == n % 10;
    }
  }

  /** The decimal text of an integer reads back as that integer. */
  lemma IntReprRoundTrip(i: int)
    ensures ParseInt(IntRepr(i)) == Some(i)
  {
    if i < 0 {
      ParseNegative(i);
    } else {
      ParseNatRepr(i);
      assert IntRepr(i)[0] != '-';
    }
  }

  lemma ParseNegative(i: int)
    requires i < 0
    ensures ParseInt(IntRepr(i)) == Some(i)
  {
    ParseNatRepr(-i);
    ParseSigned(NatRepr(-i));
  }

  /** A minus sign before a non-empty run of digits reads as its negation. */
  lemma ParseSigned(d: string)
    requires |d| >= 1 && forall k :: 0 <= k < |d| ==> IsDecimalDigit(d[k])
    ensures ParseInt("-" + d) == Some(-(ParseDigits(d) as int))
  {
    var r := "-" + d;
    assert r[1..] == d;
    assert forall k :: 1 <= k < |r| ==> r[k] == d[k - 1];
  }

  // ---------------------------------------------------------------------------
  // str.lstrip(c) and str.rstrip(c) for one character c

  /** Every leading `c` removed: the result is the suffix of `s` left after a
      run of `c`, and it does not start with `c`. */
  function LStrip(s: string, c: char): (r: string)
    ensures |r| <= |s| && r == s[|s| - |r|..]
    ensures forall i :: 0 <= i < |s| - |r| ==> s[i] == c
    ensures r == [] || r[0] != c
  {
    if |s| > 0 && s[0] == c then LStrip(s[1..], c) else s
  }

  /** Every trailing `c` removed: the result is the prefix of `s` before a
      final run of `c`, and it does not end with `c`. */
  function RStrip(s: string, c: char): (r: string)
    ensures |r| <= |s| && r == s[..|r|]
    ensures forall i :: |r| <= i < |s| ==> s[i] == c
    ensures r == [] || r[|r| - 1] != c
  {
    if |s| > 0 && s[|s| - 1] == c then RStrip(s[..|s| - 1], c) else s
  }
}
