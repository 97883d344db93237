/**
  The string renderings the mapping builds entity ids from: graph-ts
  `Bytes.toHexString` (`0x` and two lowercase hex digits per byte), its
  inverse `Bytes.fromHexString` on well-formed input, and the decimal
  `BigInt.toString` of the log index.
*/
module Text {
  import opened Wrappers
  import opened Binary

  /** A lowercase hex digit: `0`-`9`, then `a`-`f`. */
  predicate IsHexDigit(c: char) {
    '0' <= c <= '9' || 'a' <= c <= 'f'
  }

  function HexDigit(n: nat): (c: char)
    requires n < 16
    ensures IsHexDigit(c)
  {
    if n < 10 then ('0' as int + n) as char else ('a' as int + n - 10) as char
  }

  /** The two digits of one byte, high nibble first. */
  function HexPair(b: byte): (s: string)
    ensures |s| == 2 && IsHexDigit(s[0]) && IsHexDigit(s[1])
  {
    [HexDigit(b / 16), HexDigit(b % 16)]
  }

  function HexBody(b: Bytes): (s: string)
    ensures |s| == 2 * |b|
    ensures forall k :: 0 <= k < |s| ==> IsHexDigit(s[k])
  {
    if |b| == 0 then "" else HexPair(b[0]) + HexBody(b[1..])
  }

  /** `Bytes.toHexString`. */
  function Hex(b: Bytes): (s: string)
    ensures |s| == 2 + 2 * |b| && s[..2] == "0x"
    ensures '-' !in s
  {
    var body := HexBody(b);
    assert forall k :: 2 <= k < 2 + |body| ==> ("0x" + body)[k] == body[k - 2];
    "0x" + body
  }

  /** The value of one hex digit; both letter cases are accepted. */
  function HexValue(c: char): (v: Option<nat>)
    ensures v.Some? ==> v.value < 16
  {
    if '0' <= c <= '9' then Some(c as nat - '0' as nat)
    else if 'a' <= c <= 'f' then Some(c as nat - 'a' as nat + 10)
    else if 'A' <= c <= 'F' then Some(c as nat - 'A' as nat + 10)
    else None
  }

  function ParseHexBody(s: string): (r: Option<Bytes>)
    ensures r.Some? ==> 2 * |r.value| == |s|
  {
    if |s| == 0 then Some([])
    else if |s| == 1 then None
    else
      var hi, lo, rest := HexValue(s[0]), HexValue(s[1]), ParseHexBody(s[2..]);
      if hi.Some? && lo.Some? && rest.Some? then Some([hi.value * 16 + lo.value] + rest.value) else None
  }

  /**
    `Bytes.fromHexString` on well-formed input: an even number of hex
    digits after an optional `0x`. Anything else is `None`.
  */
  function ParseHex(s: string): (r: Option<Bytes>)
  {
    if |s| % 2 != 0 then None
    else if |s| >= 2 && s[..2] == "0x" then ParseHexBody(s[2..])
    else ParseHexBody(s)
  }

  lemma HexDigitValue(i: nat)
    requires i < 16
    ensures HexValue(HexDigit(i)) == Some(i)
  {
  }

  lemma PairRoundTrip(b: byte, c0: char, c1: char)
    requires [c0, c1] == HexPair(b)
    ensures HexValue(c0).Some? && HexValue(c1).Some?
    ensures HexValue(c0).value * 16 + HexValue(c1).value == b
  {
    HexDigitValue(b / 16);
    HexDigitValue(b % 16);
  }

  lemma {:induction false} HexBodyRoundTrip(b: Bytes)
    ensures ParseHexBody(HexBody(b)) == Some(b)
  {
    if |b| > 0 {
      var s := HexBody(b);
      HexBodyRoundTrip(b[1..]);
      assert s[2..] == HexBody(b[1..]);
      PairRoundTrip(b[0], s[0], s[1]);
      var hi, lo := HexValue(s[0]).value, HexValue(s[1]).value;
      assert ParseHexBody(s) == Some([hi * 16 + lo] + b[1..]);
      assert [b[0]] + b[1..] == b;
    }
  }

  /** Reading back a rendered byte string gives the bytes. */
  lemma HexRoundTrip(b: Bytes)
    ensures ParseHex(Hex(b)) == Some(b)
  {
    var s := Hex(b);
    assert s[2..] == HexBody(b);
    HexBodyRoundTrip(b);
  }

  /** Distinct byte strings have distinct renderings. */
  lemma HexInjective(a: Bytes, b: Bytes)
    requires Hex(a) == Hex(b)
    ensures a == b
  {
    HexRoundTrip(a);
    HexRoundTrip(b);
  }

  predicate IsDecimalDigit(c: char) {
    '0' <= c <= '9'
  }

  function DecimalDigit(n: nat): (c: char)
    requires n < 10
    ensures IsDecimalDigit(c)
  {
    ('0' as int + n) as char
  }

  /** `BigInt.toString` for a non-negative value: decimal, no leading zeros. */
  function Decimal(n: nat): (s: string)
    ensures |s| >= 1
    ensures forall k :: 0 <= k < |s| ==> IsDecimalDigit(s[k])
  {
    if n < 10 then [DecimalDigit(n)] else Decimal(n / 10) + [DecimalDigit(n % 10)]
  }

  /** The number a string of decimal digits denotes. */
  function DecimalValue(s: string): nat
    requires forall k :: 0 <= k < |s| ==> IsDecimalDigit(s[k])
  {
    if |s| == 0 then 0
    else
      var c := s[|s| - 1];
      assert IsDecimalDigit(c);
      DecimalValue(s[..|s| - 1]) * 10 + (c as int - '0' as int)
  }

  /** Reading back a rendered number gives the number. */
  lemma {:induction false} DecimalRoundTrip(n: nat)
    ensures DecimalValue(Decimal(n)) == n
  {
    if n >= 10 {
      DecimalRoundTrip(n / 10);
      var s := Decimal(n);
      assert s[..|s| - 1] == Decimal(n / 10);
    }
  }

  lemma DecimalInjective(a: nat, b: nat)
    requires Decimal(a) == Decimal(b)
    ensures a == b
  {
    DecimalRoundTrip(a);
    DecimalRoundTrip(b);
  }

  /**
    Composite ids join parts with `-`. When the left parts contain no `-`,
    the first `-` marks the join, so the parts can be read back.
  */
  lemma SplitAtDash(a: string, b: string, c: string, d: string)
    requires '-' !in a && '-' !in c
    requires a + "-" + b == c + "-" + d
    ensures a == c && b == d
  {
    var x := a + "-" + b;
    assert x[|a|] == '-' && x[|c|] == '-';
    assert |a| == |c|;
    assert a == x[..|a|] == c;
    assert b == x[|a| + 1..] == d;
  }
}
