/**
 The base64url fields and fixed-width tokens of `bound_encoding.cpp`. They are computed by way of padded base64:
 two characters are exchanged and the padding is taken off or put back.
 */
module UrlFields {
  import opened Wrappers
  import opened Base64
  import opened CanonicalBase64

  function ToUrl(c: char): char {
    if c == '+' then '-' else if c == '/' then '_' else c
  }

  function ToStd(c: char): char {
    if c == '-' then '+' else if c == '_' then '/' else c
  }

  function UrlReplaced(s: string): (r: string)
    ensures |r| == |s|
  {
    seq(|s|, i requires 0 <= i < |s| => ToUrl(s[i]))
  }

  function StdReplaced(s: string): (r: string)
    ensures |r| == |s|
  {
    seq(|s|, i requires 0 <= i < |s| => ToStd(s[i]))
  }

  /** The padding of a text for `b`. */
  function Padding(b: seq<byte>): (p: string)
    ensures p == "" || p == "=" || p == "=="
  {
    if |b| == 1 then "==" else if |b| == 2 then "=" else if |b| <= 3 then "" else Padding(b[3..])
  }

  /** The number of groups of a text for `b`. */
  function Groups(b: seq<byte>): nat {
    if |b| == 0 then 0 else if |b| <= 3 then 1 else 1 + Groups(b[3..])
  }

  lemma Exchange(d: sextet)
    ensures ToUrl(StdChar(d)) == UrlChar(d) && ToStd(UrlChar(d)) == StdChar(d)
  {
  }

  lemma {:induction false} DigitsToUrl(d: seq<sextet>, g: seq<byte>)
    requires 1 <= |g| <= 3 && |d| == |g| + 1
    ensures StdReplaced(UrlText(d)) + Padding(g) == QuadText(d)
  {
    forall i | 0 <= i < |d|
      ensures StdReplaced(UrlText(d))[i] == StdChar(d[i])
    {
      Exchange(d[i]);
    }
  }

  /** One group: exchanging the characters of the base64url text and padding it gives the padded text. */
  lemma {:induction false} QuadToUrl(g: seq<byte>)
    requires 1 <= |g| <= 3
    ensures StdReplaced(Url64(g)) + Padding(g) == Quad(g)
  {
    SextetsLength(g);
    DigitsToUrl(Sextets(g), g);
  }

  lemma {:induction false} PaddedToUrl(b: seq<byte>)
    ensures StdReplaced(Url64(b)) + Padding(b) == Padded(b)
    ensures |Padded(b)| == 4 * Groups(b)
  {
    if |b| == 0 {
    } else if |b| <= 3 {
      QuadToUrl(b);
    } else {
      PaddedToUrl(b[3..]);
      QuadToUrl(b[..3]);
      Url64Concat(b[..3], b[3..]);
      assert b == b[..3] + b[3..];
      StdReplacedConcat(Url64(b[..3]), Url64(b[3..]));
    }
  }

  lemma Url64Concat(a: seq<byte>, b: seq<byte>)
    requires |a| == 3
    ensures Url64(a + b) == Url64(a) + Url64(b)
  {
    SextetsOfConcat(a, b);
  }

  lemma StdReplacedConcat(a: string, b: string)
    ensures StdReplaced(a + b) == StdReplaced(a) + StdReplaced(b)
  {
  }

  predicate AllUrl(s: string) {
    forall i | 0 <= i < |s| :: IsUrlChar(s[i])
  }

  ghost predicate AllPad(s: string) {
    forall i | 0 <= i < |s| :: s[i] == '='
  }

  lemma UrlOfStd(s: string, pads: string)
    requires AllUrl(s) && AllPad(pads)
    ensures UrlReplaced(StdReplaced(s) + pads) == s + pads
  {
  }

  method Base64Url(value: seq<byte>) returns (encoded: string)
    ensures encoded == Url64(value)
  {
    encoded := EncodeCanonicalBase64(value);
    encoded := UrlReplaced(encoded);
    PaddedToUrl(value);
    Url64Chars(value);
    UrlOfStd(Url64(value), Padding(value));
    ghost var stripped := 0;
    while encoded != "" && encoded[|encoded| - 1] == '='
      invariant stripped <= |Padding(value)|
      invariant encoded == Url64(value) + Padding(value)[stripped..]
      decreases |encoded|
    {
      encoded := encoded[..|encoded| - 1];
      stripped := stripped + 1;
    }
  }

  // ----- Decoding -----

  /** Alphabet text followed by padding splits in only one way. */
  lemma SamePrefix(s: string, p: string, t: string, q: string)
    requires s + p == t + q && AllUrl(s) && AllUrl(t) && AllPad(p) && AllPad(q)
    ensures s == t && p == q
  {
    TextEnds(s + p, s, p, t, q);
    TextEnds(s + p, t, q, s, p);
    assert s == (s + p)[..|s|];
    assert t == (t + q)[..|t|];
    assert p == (s + p)[|s|..];
  }

  lemma TextEnds(w: string, s: string, p: string, t: string, q: string)
    requires w == s + p && w == t + q && AllPad(p) && AllUrl(t)
    ensures |t| <= |s|
  {
    forall i | |s| <= i < |w|
      ensures w[i] == '='
    {
      assert w[i] == p[i - |s|];
    }
    forall i | 0 <= i < |t|
      ensures w[i] != '='
    {
      assert w[i] == t[i];
    }
    assert |s| < |w| ==> w[|s|] == '=';
  }

  lemma {:induction false} PadsBack(s: string, pads: string, b: seq<byte>)
    requires AllUrl(s) && AllPad(pads)
    requires Padded(b) == StdReplaced(s) + pads
    ensures Url64(b) == s
  {
    PaddedToUrl(b);
    Url64Chars(b);
    UrlOfStd(s, pads);
    UrlOfStd(Url64(b), Padding(b));
    SamePrefix(s, pads, Url64(b), Padding(b));
  }

  method PadToFour(s: string) returns (padded: string, ghost pads: string, ghost quads: nat)
    ensures padded == s + pads && |pads| <= 3 && |padded| == 4 * quads && AllPad(pads)
  {
    padded, pads := s, "";
    quads := |s| / 4 + (if |s| % 4 == 0 then 0 else 1);
    while |padded| % 4 != 0
      invariant padded == s + pads && |s| <= |padded| <= 4 * quads && 4 * quads <= |s| + 3
      invariant AllPad(pads)
      decreases 4 * quads - |padded|
    {
      padded := padded + "=";
      pads := pads + "=";
    }
  }

  /** A text that spells `b` decodes to it once it is padded. */
  lemma {:induction false} PaddedDecodes(value: string, pads: string, quads: nat, b: seq<byte>)
    requires Url64(b) == value && |pads| <= 3 && AllPad(pads) && |value| + |pads| == 4 * quads
    ensures Unpad(StdReplaced(value) + pads) == Some(b)
  {
    PaddedToUrl(b);
    UnpadOfPadded(b);
    FourApart(|value|, |pads|, |Padding(b)|, quads, Groups(b));
    assert Padding(b) == pads;
  }

  lemma FourApart(n: nat, p: nat, q: nat, k: nat, l: nat)
    requires p <= 3 && q <= 3 && n + p == 4 * k && n + q == 4 * l
    ensures p == q
  {
  }

  /** Succeeds on exactly the base64url texts of at most `maximum` bytes, with the bytes they spell. */
  method DecodeBase64Url(value: string, maximum: nat) returns (r: Option<seq<byte>>)
    ensures r.Some? ==> maximum <= 8192 && |r.value| <= maximum && Url64(r.value) == value
    ensures forall b | Url64(b) == value && |b| <= maximum <= 8192 :: r == Some(b)
  {
    r := None;
    if maximum > 8192 {
      return;
    }
    if |value| > (maximum * 4 + 2) / 3 {
      LongText(value, maximum);
      return;
    }
    if value == "" {
      r := Some([]);
      assert Url64([]) == "";
      forall b | Url64(b) == value
        ensures b == []
      {
        Url64Injective(b, []);
      }
      return;
    }
    if !AllUrl(value) {
      forall b | Url64(b) == value
        ensures false
      {
        Url64Chars(b);
      }
      return;
    }
    var padded, pads, quads := PadToFour(StdReplaced(value));
    var candidate := DecodeCanonicalBase64(padded);
    forall b | Url64(b) == value
      ensures candidate == Some(b)
    {
      PaddedDecodes(value, pads, quads, b);
    }
    if candidate.None? || |candidate.value| > maximum {
      return;
    }
    PaddedOfUnpad(padded);
    PadsBack(value, pads, candidate.value);
    r := candidate;
  }

  lemma LongText(value: string, maximum: nat)
    requires |value| > (maximum * 4 + 2) / 3
    ensures forall b | Url64(b) == value :: |b| > maximum
  {
    forall b | Url64(b) == value
      ensures |b| > maximum
    {
      SextetsLength(b);
    }
  }

  // ----- Tokens -----

  /** `token`: a 128- or 256-bit value in base64url, with the spare bits of the last digit zero. */
  predicate IsToken(value: string, bytes: nat) {
    && (bytes == 16 || bytes == 32)
    && |value| == (bytes * 8 + 5) / 6
    && AllUrl(value)
    && UrlDigit(value[|value| - 1]) % (if bytes == 16 then 16 else 4) == 0
  }

  /** Digits decode exactly when the short last group, if any, has at least two digits and no spare bits. */
  lemma {:induction false} CanonicalDigits(d: seq<sextet>, groups: nat)
    requires 4 * groups <= |d| < 4 * groups + 4
    ensures Bytes(d).Some? <==>
            && |d| != 4 * groups + 1
            && (|d| == 4 * groups + 2 ==> d[|d| - 1] % 16 == 0)
            && (|d| == 4 * groups + 3 ==> d[|d| - 1] % 4 == 0)
    ensures Bytes(d).Some? ==>
      |Bytes(d).value| == 3 * groups + (if |d| == 4 * groups + 2 then 1 else if |d| == 4 * groups + 3 then 2 else 0)
  {
    if |d| >= 4 {
      CanonicalDigits(d[4..], groups - 1);
    }
  }

  lemma TokenDecodes(value: string, bytes: nat)
    requires IsToken(value, bytes)
    ensures var d := UrlDigits(value); Bytes(d).Some? && |Bytes(d).value| == bytes && Url64(Bytes(d).value) == value
  {
    var d := UrlDigits(value);
    CanonicalDigits(d, if bytes == 16 then 5 else 10);
    SextetsOfBytes(d);
    UrlTextOfDigits(value);
  }

  lemma ImageIsToken(b: seq<byte>)
    requires |b| == 16 || |b| == 32
    ensures IsToken(Url64(b), |b|)
  {
    SextetsLength(b);
    Url64Chars(b);
    UrlDigitsOfText(Sextets(b));
    BytesOfSextets(b);
    CanonicalDigits(Sextets(b), if |b| == 16 then 5 else 10);
  }

  /** A token is exactly the text of a string of its width. */
  lemma TokenIsImage(value: string, bytes: nat)
    requires bytes == 16 || bytes == 32
    ensures IsToken(value, bytes) <==> exists b: seq<byte> :: |b| == bytes && Url64(b) == value
  {
    if IsToken(value, bytes) {
      TokenDecodes(value, bytes);
    }
    forall b: seq<byte> | |b| == bytes && Url64(b) == value
      ensures IsToken(value, bytes)
    {
      ImageIsToken(b);
    }
  }
}
