/**
 Padded base64 (section 4 of RFC 4648) as `spki.cpp` encodes and decodes it, and the base64url fields and
 fixed-width tokens that `bound_encoding.cpp` builds on it.
 */
module CanonicalBase64 {
  import opened Wrappers
  import opened Base64

  // ----- The padded spelling -----

  function StdChar(d: sextet): (c: char) {
    if d == 62 then '+' else if d == 63 then '/' else UrlChar(d)
  }

  /** Table 1 of RFC 4648. */
  lemma StdAlphabet(d: sextet)
    ensures d < 26 ==> StdChar(d) == "ABCDEFGHIJKLMNOPQRSTUVWXYZ"[d]
    ensures 26 <= d < 52 ==> StdChar(d) == "abcdefghijklmnopqrstuvwxyz"[d - 26]
    ensures d >= 52 ==> StdChar(d) == "0123456789+/"[d - 52]
  {
    UrlAlphabet(d);
  }

  predicate IsStdChar(c: char) {
    'A' <= c <= 'Z' || 'a' <= c <= 'z' || '0' <= c <= '9' || c == '+' || c == '/'
  }

  /** `decode_base64_character`: -1 for a character outside the alphabet. */
  function DecodeCharacter(c: char): (d: int)
    ensures -1 <= d < 64
    ensures d == -1 <==> !IsStdChar(c)
    ensures d >= 0 ==> StdChar(d) == c
  {
    if 'A' <= c <= 'Z' then c as int - 'A' as int
    else if 'a' <= c <= 'z' then c as int - 'a' as int + 26
    else if '0' <= c <= '9' then c as int - '0' as int + 52
    else if c == '+' then 62
    else if c == '/' then 63
    else -1
  }

  lemma DecodeStdChar(d: sextet)
    ensures IsStdChar(StdChar(d)) && DecodeCharacter(StdChar(d)) == d
    ensures StdChar(d) != '='
  {
  }

  /** Two, three or four digits, filled up to four characters. */
  function QuadText(d: seq<sextet>): (s: string)
    requires 2 <= |d| <= 4
    ensures |s| == 4
  {
    [StdChar(d[0]), StdChar(d[1]), if |d| > 2 then StdChar(d[2]) else '=', if |d| > 3 then StdChar(d[3]) else '=']
  }

  /** The text of one group of one, two or three bytes. */
  function Quad(g: seq<byte>): (s: string)
    requires 1 <= |g| <= 3
    ensures |s| == 4
  {
    SextetsLength(g);
    QuadText(Sextets(g))
  }

  function Padded(b: seq<byte>): string {
    if |b| == 0 then ""
    else if |b| <= 3 then Quad(b)
    else Quad(b[..3]) + Padded(b[3..])
  }

  /** The group that four characters spell canonically; only the last group may be padded. */
  function Unquad(s: string, last: bool): Option<seq<byte>>
    requires |s| == 4
  {
    var a, b, c, d := DecodeCharacter(s[0]), DecodeCharacter(s[1]), DecodeCharacter(s[2]), DecodeCharacter(s[3]);
    if a < 0 || b < 0 then None
    else if last && s[2] == '=' && s[3] == '=' then Bytes([a, b])
    else if c < 0 then None
    else if last && s[3] == '=' then Bytes([a, b, c])
    else if d < 0 then None
    else Bytes([a, b, c, d])
  }

  /** The bytes that a padded text spells, if it is the canonical spelling of any. */
  function Unpad(s: string): Option<seq<byte>> {
    if |s| == 0 then Some([])
    else if |s| < 4 then None
    else if |s| == 4 then Unquad(s, true)
    else
      var first, rest := Unquad(s[..4], false), Unpad(s[4..]);
      if first.None? || rest.None? then None else Some(first.value + rest.value)
  }

  lemma UnquadOfQuad(g: seq<byte>)
    requires 1 <= |g| <= 3
    ensures Unquad(Quad(g), true) == Some(g)
    ensures |g| == 3 ==> Unquad(Quad(g), false) == Some(g)
  {
    var d := Sextets(g);
    if |g| == 3 {
      assert Sextets(g[3..]) == [];
      DecodeStdChar(d[3]);
      assert d == [d[0], d[1], d[2], d[3]];
    } else if |g| == 2 {
      assert d == [d[0], d[1], d[2]];
    } else {
      assert d == [d[0], d[1]];
    }
    DecodeStdChar(d[0]);
    DecodeStdChar(d[1]);
    if |g| >= 2 {
      DecodeStdChar(d[2]);
    }
    BytesOfSextets(g);
  }

  lemma QuadOfUnquad(s: string, last: bool)
    requires |s| == 4 && Unquad(s, last).Some?
    ensures var g := Unquad(s, last).value; 1 <= |g| <= 3 && (!last ==> |g| == 3) && Quad(g) == s
  {
    var a, b, c, d := DecodeCharacter(s[0]), DecodeCharacter(s[1]), DecodeCharacter(s[2]), DecodeCharacter(s[3]);
    var digits: seq<sextet> := if last && s[2] == '=' && s[3] == '=' then [a, b]
              else if last && s[3] == '=' then [a, b, c] else [a, b, c, d];
    SextetsOfBytes(digits);
    if |digits| == 4 {
      assert digits[4..] == [];
    }
  }

  lemma {:induction false} UnpadOfPadded(b: seq<byte>)
    ensures Unpad(Padded(b)) == Some(b)
  {
    if 1 <= |b| <= 3 {
      UnquadOfQuad(b);
    } else if |b| > 3 {
      UnquadOfQuad(b[..3]);
      UnpadOfPadded(b[3..]);
      var s := Padded(b);
      assert s[..4] == Quad(b[..3]) && s[4..] == Padded(b[3..]);
      PaddedNonempty(b[3..]);
      assert b == b[..3] + b[3..];
    }
  }

  lemma {:induction false} PaddedNonempty(b: seq<byte>)
    requires b != []
    ensures |Padded(b)| >= 4
  {
  }

  lemma {:induction false} PaddedOfUnpad(s: string)
    requires Unpad(s).Some?
    ensures Padded(Unpad(s).value) == s
    ensures s != "" ==> Unpad(s).value != []
  {
    if |s| == 4 {
      QuadOfUnquad(s, true);
    } else if |s| > 4 {
      QuadOfUnquad(s[..4], false);
      PaddedOfUnpad(s[4..]);
      var g, r := Unquad(s[..4], false).value, Unpad(s[4..]).value;
      assert (g + r)[..3] == g && (g + r)[3..] == r;
      assert s == s[..4] + s[4..];
    }
  }

  // ----- The coder of spki.cpp -----

  /** What is left to encode; the offset may step past the end. */
  function Tail(data: seq<byte>, offset: nat): seq<byte> {
    if offset <= |data| then data[offset..] else []
  }

  lemma PaddedStep(data: seq<byte>, offset: nat)
    requires offset < |data|
    ensures var t := Tail(data, offset);
            Padded(t) == Quad(if |t| <= 3 then t else t[..3]) + Padded(Tail(data, offset + 3))
  {
    var t := Tail(data, offset);
    if |t| > 3 {
      assert t[3..] == data[offset + 3..];
    } else {
      assert Tail(data, offset + 3) == [];
    }
  }

  method EncodeCanonicalBase64(data: seq<byte>) returns (output: string)
    ensures output == Padded(data)
  {
    output := "";
    var offset := 0;
    assert Tail(data, 0) == data;
    while offset < |data|
      invariant output + Padded(Tail(data, offset)) == Padded(data)
    {
      PaddedStep(data, offset);
      var t := Tail(data, offset);
      var quad := EncodeQuad(if |t| <= 3 then t else t[..3]);
      output := output + quad;
      offset := offset + 3;
    }
  }

  /** One group through the 24-bit word, missing bytes as zero. */
  method EncodeQuad(g: seq<byte>) returns (quad: string)
    requires 1 <= |g| <= 3
    ensures quad == Quad(g)
  {
    var a: byte := g[0];
    var b: byte := if 1 < |g| then g[1] else 0;
    var c: byte := if 2 < |g| then g[2] else 0;
    var word := a * 0x1_0000 + b * 0x100 + c;
    WordDigits(a, b, c);
    GroupDigits(g, a, b, c);
    quad := [StdChar(word / 0x4_0000 % 64), StdChar(word / 0x1000 % 64),
             if 1 < |g| then StdChar(word / 64 % 64) else '=', if 2 < |g| then StdChar(word % 64) else '='];
  }

  lemma GroupDigits(g: seq<byte>, a: byte, b: byte, c: byte)
    requires 1 <= |g| <= 3 && g + seq(3 - |g|, i => 0) == [a, b, c]
    ensures Quad(g) == [StdChar(a / 4), StdChar(a % 4 * 16 + b / 16),
                        if 1 < |g| then StdChar(b % 16 * 4 + c / 64) else '=', if 2 < |g| then StdChar(c % 64) else '=']
  {
    var filled := g + seq(3 - |g|, i => 0);
    assert filled[0] == a && filled[1] == b && filled[2] == c;
    if |g| == 3 {
      assert Sextets(g[3..]) == [];
    }
  }

  lemma WordDigits(a: byte, b: byte, c: byte)
    ensures var word := a * 0x1_0000 + b * 0x100 + c;
            && word / 0x4_0000 % 64 == a / 4
            && word / 0x1000 % 64 == a % 4 * 16 + b / 16
            && word / 64 % 64 == b % 16 * 4 + c / 64
            && word % 64 == c % 64
  {
    var w := a * 0x1_0000 + b * 0x100 + c;
    var d0, d1, d2, d3 := a / 4, a % 4 * 16 + b / 16, b % 16 * 4 + c / 64, c % 64;
    assert w == d0 * 0x4_0000 + d1 * 0x1000 + d2 * 64 + d3;
    FromDigits(d0, d1, d2, d3);
  }

  lemma Divide(q: nat, m: nat, r: nat)
    requires m in {64, 0x1000, 0x4_0000, 0x100, 0x1_0000} && r < m
    ensures (q * m + r) / m == q && (q * m + r) % m == r
  {
  }

  lemma FromDigits(d0: sextet, d1: sextet, d2: sextet, d3: sextet)
    ensures var w := d0 * 0x4_0000 + d1 * 0x1000 + d2 * 64 + d3;
            w / 0x4_0000 % 64 == d0 && w / 0x1000 % 64 == d1 && w / 64 % 64 == d2 && w % 64 == d3
  {
    Divide(d0, 0x4_0000, d1 * 0x1000 + d2 * 64 + d3);
    Divide(d0 * 64 + d1, 0x1000, d2 * 64 + d3);
    Divide(d0 * 64, 64, d1);
    Divide(d0, 64, d1);
    Divide(d0 * 0x1000 + d1 * 64 + d2, 64, d3);
    Divide(d0 * 64 + d1, 64, d2);
  }

  /** One group of four characters; accepts spare bits, which the final comparison rejects. */
  method DecodeQuad(q: string, last: bool) returns (ok: bool, g: seq<byte>)
    requires |q| == 4
    ensures Unquad(q, last).Some? ==> ok && g == Unquad(q, last).value
  {
    g := [];
    var a := DecodeCharacter(q[0]);
    var b := DecodeCharacter(q[1]);
    var c := if q[2] == '=' then -2 else DecodeCharacter(q[2]);
    var d := if q[3] == '=' then -2 else DecodeCharacter(q[3]);
    if a < 0 || b < 0 || c == -1 || d == -1 || (!last && (c == -2 || d == -2)) || (c == -2 && d != -2) {
      ok := false;
      return;
    }
    ok := true;
    var c0: sextet := if c < 0 then 0 else c;
    var d0: sextet := if d < 0 then 0 else d;
    WordBytes(a, b, c0, d0);
    var word := a * 0x4_0000 + b * 0x1000 + c0 * 64 + d0;
    g := [word / 0x1_0000];
    if c >= 0 {
      g := g + [word / 0x100 % 0x100];
    }
    if d >= 0 {
      g := g + [word % 0x100];
    }
    if Unquad(q, last).Some? {
      UnquadGroup(q, last);
    }
  }

  lemma WordBytes(a: sextet, b: sextet, c: sextet, d: sextet)
    ensures var word := a * 0x4_0000 + b * 0x1000 + c * 64 + d;
            [word / 0x1_0000, word / 0x100 % 0x100, word % 0x100] == Group(a, b, c, d)
  {
    var g0: int, g1: int, g2: int := a * 4 + b / 16, b % 16 * 16 + c / 4, c % 4 * 64 + d;
    var word := a * 0x4_0000 + b * 0x1000 + c * 64 + d;
    assert word == g0 * 0x1_0000 + g1 * 0x100 + g2;
    FromBytes(g0, g1, g2);
  }

  lemma FromBytes(g0: byte, g1: byte, g2: byte)
    ensures var w := g0 * 0x1_0000 + g1 * 0x100 + g2;
            w / 0x1_0000 == g0 && w / 0x100 % 0x100 == g1 && w % 0x100 == g2
  {
    Divide(g0, 0x1_0000, g1 * 0x100 + g2);
    Divide(g0 * 0x100 + g1, 0x100, g2);
    Divide(g0, 0x100, g1);
  }

  lemma UnquadGroup(q: string, last: bool)
    requires |q| == 4 && Unquad(q, last).Some?
    ensures var a, b, c, d := DecodeCharacter(q[0]), DecodeCharacter(q[1]), DecodeCharacter(q[2]), DecodeCharacter(q[3]);
            && a >= 0 && b >= 0
            && (last && q[2] == '=' && q[3] == '=' ==> Unquad(q, last).value == Group(a, b, 0, 0)[..1])
            && (q[2] != '=' ==> c >= 0)
            && (q[2] != '=' && last && q[3] == '=' ==> Unquad(q, last).value == Group(a, b, c, 0)[..2])
            && (q[2] != '=' && q[3] != '=' ==> d >= 0 && Unquad(q, last).value == Group(a, b, c, d))
            && (q[2] == '=' ==> last && q[3] == '=')
            && (q[3] == '=' ==> last)
  {
    var a, b, c, d := DecodeCharacter(q[0]), DecodeCharacter(q[1]), DecodeCharacter(q[2]), DecodeCharacter(q[3]);
    if q[2] != '=' && q[3] != '=' {
      assert Bytes([]) == Some([]);
      assert [a, b, c, d][4..] == [];
    }
  }

  lemma {:induction false} UnpadStep(s: string)
    requires |s| >= 4
    ensures Unpad(s).Some? ==>
              && Unquad(s[..4], |s| == 4).Some?
              && Unpad(s[4..]).Some?
              && Unpad(s).value == Unquad(s[..4], |s| == 4).value + Unpad(s[4..]).value
  {
    if |s| == 4 {
      assert s[..4] == s && s[4..] == "";
    }
  }

  method DecodeQuads(encoded: string, ghost quads: nat) returns (ok: bool, candidate: seq<byte>)
    requires |encoded| == 4 * quads
    ensures Unpad(encoded).Some? ==> ok && candidate == Unpad(encoded).value
  {
    ok, candidate := false, [];
    var offset := 0;
    ghost var left := quads;
    assert encoded[0..] == encoded;
    while offset < |encoded|
      invariant |encoded| == offset + 4 * left
      invariant Unpad(encoded).Some? ==>
                  && Unpad(encoded[offset..]).Some?
                  && Unpad(encoded).value == candidate + Unpad(encoded[offset..]).value
    {
      var last := offset + 4 == |encoded|;
      UnpadStep(encoded[offset..]);
      assert encoded[offset..][..4] == encoded[offset..offset + 4] && encoded[offset..][4..] == encoded[offset + 4..];
      var decoded, g := DecodeQuad(encoded[offset..offset + 4], last);
      if !decoded {
        return;
      }
      candidate := candidate + g;
      offset := offset + 4;
      left := left - 1;
    }
    assert encoded[offset..] == "";
    ok := true;
  }

  /** Succeeds on exactly the canonical nonempty texts, with the bytes they spell. */
  method DecodeCanonicalBase64(encoded: string) returns (r: Option<seq<byte>>)
    ensures r == if encoded == "" then None else Unpad(encoded)
  {
    r := None;
    if Unpad(encoded).Some? {
      UnpadLength(encoded);
      PaddedOfUnpad(encoded);
    }
    if encoded == "" || |encoded| % 4 != 0 {
      return;
    }
    var ok, candidate := DecodeQuads(encoded, |encoded| / 4);
    if !ok {
      return;
    }
    var again := EncodeCanonicalBase64(candidate);
    if again != encoded {
      return;
    }
    UnpadOfPadded(candidate);
    r := Some(candidate);
  }

  lemma {:induction false} UnpadLength(s: string)
    requires Unpad(s).Some?
    ensures |s| % 4 == 0
  {
    if |s| > 4 {
      UnpadLength(s[4..]);
    }
  }
}
