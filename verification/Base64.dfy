/**
 Base64 as sections 3.5, 4 and 5 of RFC 4648 define it: three bytes become four six-bit digits, and a short
 last group must have zero spare bits. `Sextets` and `Bytes` are the reference; every codec of the library is
 proved against them.
 */
module Base64 {
  import opened Wrappers

  type byte = x: int | 0 <= x < 256
  type sextet = x: int | 0 <= x < 64

  function Sextets(b: seq<byte>): (d: seq<sextet>) {
    if |b| == 0 then []
    else if |b| == 1 then [b[0] / 4, b[0] % 4 * 16]
    else if |b| == 2 then [b[0] / 4, b[0] % 4 * 16 + b[1] / 16, b[1] % 16 * 4]
    else [b[0] / 4, b[0] % 4 * 16 + b[1] / 16, b[1] % 16 * 4 + b[2] / 64, b[2] % 64] + Sextets(b[3..])
  }

  lemma {:induction false} SextetsLength(b: seq<byte>)
    ensures |Sextets(b)| == (4 * |b| + 2) / 3
  {
    if |b| >= 3 {
      SextetsLength(b[3..]);
    }
  }

  /** The bytes that a digit sequence spells, if it is the canonical spelling of any. */
  function Bytes(d: seq<sextet>): Option<seq<byte>> {
    if |d| == 0 then Some([])
    else if |d| == 1 then None
    else if |d| == 2 then
      if d[1] % 16 == 0 then Some(Group(d[0], d[1], 0, 0)[..1]) else None
    else if |d| == 3 then
      if d[2] % 4 == 0 then Some(Group(d[0], d[1], d[2], 0)[..2]) else None
    else
      var rest := Bytes(d[4..]);
      if rest.None? then None else Some(Group(d[0], d[1], d[2], d[3]) + rest.value)
  }

  function Group(a: sextet, b: sextet, c: sextet, d: sextet): (g: seq<byte>)
    ensures |g| == 3
  {
    [a * 4 + b / 16, b % 16 * 16 + c / 4, c % 4 * 64 + d]
  }

  /** Decoding undoes encoding. */
  lemma {:induction false} BytesOfSextets(b: seq<byte>)
    ensures Bytes(Sextets(b)) == Some(b)
  {
    var d := Sextets(b);
    if |b| >= 3 {
      assert d[4..] == Sextets(b[3..]);
      BytesOfSextets(b[3..]);
      assert Group(d[0], d[1], d[2], d[3]) == b[..3];
      assert b == b[..3] + b[3..];
    } else if |b| == 2 {
      assert Bytes(d).value == b;
    } else if |b| == 1 {
      assert Bytes(d).value == b;
    }
  }

  lemma DigitsOfGroup(a: sextet, b: sextet, c: sextet, d: sextet)
    ensures var g := Group(a, b, c, d);
            g[0] / 4 == a && g[0] % 4 * 16 + g[1] / 16 == b && g[1] % 16 * 4 + g[2] / 64 == c && g[2] % 64 == d
  {
  }

  /** A digit sequence that decodes is the encoding of what it decodes to: there is one spelling per value. */
  lemma {:induction false} SextetsOfBytes(d: seq<sextet>)
    requires Bytes(d).Some?
    ensures Sextets(Bytes(d).value) == d
  {
    if |d| >= 4 {
      SextetsOfBytes(d[4..]);
      DigitsOfGroup(d[0], d[1], d[2], d[3]);
      var b := Bytes(d).value;
      var g := Group(d[0], d[1], d[2], d[3]);
      assert b == g + Bytes(d[4..]).value;
      assert b[3..] == Bytes(d[4..]).value;
      assert Sextets(b) == [d[0], d[1], d[2], d[3]] + Sextets(b[3..]);
      assert d == [d[0], d[1], d[2], d[3]] + d[4..];
    } else if |d| == 3 {
      DigitsOfGroup(d[0], d[1], d[2], 0);
      assert Sextets(Bytes(d).value) == d;
    } else if |d| == 2 {
      DigitsOfGroup(d[0], d[1], 0, 0);
      assert Sextets(Bytes(d).value) == d;
    }
  }

  lemma {:induction false} SextetsOfConcat(a: seq<byte>, b: seq<byte>)
    requires |a| % 3 == 0
    ensures Sextets(a + b) == Sextets(a) + Sextets(b)
  {
    if a == [] {
      assert a + b == b;
    } else {
      assert (a + b)[3..] == a[3..] + b;
      SextetsOfConcat(a[3..], b);
    }
  }

  /** The integer that `high` and these bytes form, most significant first. */
  function ByteNumber(b: seq<byte>, high: nat): nat {
    if b == [] then high else ByteNumber(b[1..], high * 256 + b[0])
  }

  function DigitNumber(d: seq<sextet>, high: nat): nat {
    if d == [] then high else DigitNumber(d[1..], high * 64 + d[0])
  }

  lemma NextDigit(d: seq<sextet>, high: nat)
    requires d != []
    ensures DigitNumber(d, high) == DigitNumber(d[1..], high * 64 + d[0])
  {
  }

  lemma NextByte(b: seq<byte>, high: nat)
    requires b != []
    ensures ByteNumber(b, high) == ByteNumber(b[1..], high * 256 + b[0])
  {
  }

  lemma TwoDigits(d: seq<sextet>, high: nat)
    requires |d| >= 2
    ensures DigitNumber(d, high) == DigitNumber(d[2..], (high * 64 + d[0]) * 64 + d[1])
  {
    NextDigit(d, high);
    NextDigit(d[1..], high * 64 + d[0]);
    assert d[1..][1..] == d[2..];
  }

  lemma TwoBytes(b: seq<byte>, high: nat)
    requires |b| >= 2
    ensures ByteNumber(b, high) == ByteNumber(b[2..], (high * 256 + b[0]) * 256 + b[1])
  {
    NextByte(b, high);
    NextByte(b[1..], high * 256 + b[0]);
    assert b[1..][1..] == b[2..];
  }

  lemma FourDigits(d: seq<sextet>, high: nat)
    requires |d| >= 4
    ensures DigitNumber(d, high) ==
            DigitNumber(d[4..], (((high * 64 + d[0]) * 64 + d[1]) * 64 + d[2]) * 64 + d[3])
  {
    TwoDigits(d, high);
    TwoDigits(d[2..], (high * 64 + d[0]) * 64 + d[1]);
    assert d[2..][2..] == d[4..];
  }

  lemma ThreeBytes(b: seq<byte>, high: nat)
    requires |b| >= 3
    ensures ByteNumber(b, high) == ByteNumber(b[3..], ((high * 256 + b[0]) * 256 + b[1]) * 256 + b[2])
  {
    TwoBytes(b, high);
    NextByte(b[2..], (high * 256 + b[0]) * 256 + b[1]);
    assert b[2..][1..] == b[3..];
  }

  /** The digits are the bits of the bytes, most significant first, filled up with zero bits. */
  lemma {:induction false} SextetsAreBits(b: seq<byte>, high: nat)
    ensures DigitNumber(Sextets(b), high) ==
            ByteNumber(b, high) * if |b| % 3 == 0 then 1 else if |b| % 3 == 1 then 16 else 4
  {
    var d := Sextets(b);
    if |b| >= 3 {
      ThreeBytes(b, high);
      FourDigits(d, high);
      assert d[4..] == Sextets(b[3..]) && |b[3..]| % 3 == |b| % 3;
      SextetsAreBits(b[3..], ((high * 256 + b[0]) * 256 + b[1]) * 256 + b[2]);
    } else if |b| == 2 {
      TwoBytes(b, high);
      TwoDigits(d, high);
      NextDigit(d[2..], (high * 64 + d[0]) * 64 + d[1]);
    } else if |b| == 1 {
      NextByte(b, high);
      TwoDigits(d, high);
    }
  }

  // ----- Alphabets -----

  function UrlChar(d: sextet): (c: char) {
    if d < 26 then ('A' as int + d) as char
    else if d < 52 then ('a' as int + d - 26) as char
    else if d < 62 then ('0' as int + d - 52) as char
    else if d == 62 then '-'
    else '_'
  }

  /** Table 2 of RFC 4648. */
  lemma UrlAlphabet(d: sextet)
    ensures d < 26 ==> UrlChar(d) == "ABCDEFGHIJKLMNOPQRSTUVWXYZ"[d]
    ensures 26 <= d < 52 ==> UrlChar(d) == "abcdefghijklmnopqrstuvwxyz"[d - 26]
    ensures d >= 52 ==> UrlChar(d) == "0123456789-_"[d - 52]
  {
  }

  predicate IsUrlChar(c: char) {
    'A' <= c <= 'Z' || 'a' <= c <= 'z' || '0' <= c <= '9' || c == '-' || c == '_'
  }

  function UrlDigit(c: char): (d: sextet)
    requires IsUrlChar(c)
    ensures UrlChar(d) == c
  {
    if 'A' <= c <= 'Z' then c as int - 'A' as int
    else if 'a' <= c <= 'z' then c as int - 'a' as int + 26
    else if '0' <= c <= '9' then c as int - '0' as int + 52
    else if c == '-' then 62
    else 63
  }

  lemma UrlDigitOfChar(d: sextet)
    ensures IsUrlChar(UrlChar(d)) && UrlDigit(UrlChar(d)) == d
  {
  }

  function UrlText(d: seq<sextet>): (s: string)
    ensures |s| == |d|
  {
    seq(|d|, i requires 0 <= i < |d| => UrlChar(d[i]))
  }

  function UrlDigits(s: string): (d: seq<sextet>)
    requires forall i | 0 <= i < |s| :: IsUrlChar(s[i])
    ensures |d| == |s|
  {
    seq(|s|, i requires 0 <= i < |s| => UrlDigit(s[i]))
  }

  lemma UrlTextOfDigits(s: string)
    requires forall i | 0 <= i < |s| :: IsUrlChar(s[i])
    ensures UrlText(UrlDigits(s)) == s
  {
  }

  lemma UrlDigitsOfText(d: seq<sextet>)
    ensures forall i | 0 <= i < |d| :: IsUrlChar(UrlText(d)[i])
    ensures UrlDigits(UrlText(d)) == d
  {
    forall i | 0 <= i < |d|
      ensures IsUrlChar(UrlText(d)[i]) && UrlDigit(UrlText(d)[i]) == d[i]
    {
      UrlDigitOfChar(d[i]);
    }
  }

  /** Unpadded base64url, the spelling every protocol field uses. */
  function Url64(b: seq<byte>): string {
    UrlText(Sextets(b))
  }

  lemma Url64Injective(a: seq<byte>, b: seq<byte>)
    requires Url64(a) == Url64(b)
    ensures a == b
  {
    UrlDigitsOfText(Sextets(a));
    UrlDigitsOfText(Sextets(b));
    BytesOfSextets(a);
    BytesOfSextets(b);
  }

  lemma Url64Chars(b: seq<byte>)
    ensures forall i | 0 <= i < |Url64(b)| :: IsUrlChar(Url64(b)[i])
  {
    UrlDigitsOfText(Sextets(b));
  }
}
