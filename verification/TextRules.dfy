/**
 The rules on text fields (`bound_encoding.cpp`), and texts as bytes: a character below 256 stands for a byte.
 */
module TextRules {
  import opened Base64
  import opened Utf8
  import opened UrlFields

  const MAX_FIELD := 1024

  /** `utf8_text` with its default maximum. */
  predicate FieldText(s: string) {
    s != "" && |s| <= MAX_FIELD && IsUtf8(s)
  }

  predicate HexDigest(s: string) {
    |s| == 64 && forall i | 0 <= i < |s| :: '0' <= s[i] <= '9' || 'a' <= s[i] <= 'f'
  }

  predicate KeyIdValid(s: string) {
    |s| == 71 && "sha256:" <= s && HexDigest(s[7..])
  }

  predicate IsName(s: string, maximum: nat) {
    && s != "" && |s| <= maximum
    && forall i | 0 <= i < |s| ::
         'A' <= s[i] <= 'Z' || 'a' <= s[i] <= 'z' || '0' <= s[i] <= '9' || s[i] in {'_', '.', ':', '-'}
  }

  /** The characters of digests and names, one by one. */
  lemma {:induction false} FieldCharacters(s: string, maximum: nat)
    ensures HexDigest(s) <==>
            |s| == 64 && forall i | 0 <= i < |s| :: s[i] in {'0', '1', '2', '3', '4', '5', '6', '7', '8', '9',
                                                             'a', 'b', 'c', 'd', 'e', 'f'}
    ensures IsName(s, maximum) <==>
            1 <= |s| <= maximum &&
            forall i | 0 <= i < |s| ::
              s[i] in {'A', 'B', 'C', 'D', 'E', 'F', 'G', 'H', 'I', 'J', 'K', 'L', 'M', 'N', 'O', 'P', 'Q', 'R', 'S',
                       'T', 'U', 'V', 'W', 'X', 'Y', 'Z', 'a', 'b', 'c', 'd', 'e', 'f', 'g', 'h', 'i', 'j', 'k', 'l',
                       'm', 'n', 'o', 'p', 'q', 'r', 's', 't', 'u', 'v', 'w', 'x', 'y', 'z',
                       '0', '1', '2', '3', '4', '5', '6', '7', '8', '9', '_', '.', ':', '-'}
    ensures KeyIdValid(s) <==> exists digest :: s == "sha256:" + digest && HexDigest(digest)
    ensures FieldText(s) <==> IsUtf8(s) && 1 <= |s| <= 1024
  {
    if KeyIdValid(s) {
      assert s == "sha256:" + s[7..];
    }
    forall digest | s == "sha256:" + digest && HexDigest(digest)
      ensures KeyIdValid(s)
    {
      assert s[7..] == digest;
    }
  }

  predicate ByteText(s: string) {
    forall i | 0 <= i < |s| :: s[i] as int < 256
  }

  /** The bytes of a text. */
  function Octets(s: string): (b: seq<byte>)
    ensures |b| == |s| && (ByteText(s) ==> forall i | 0 <= i < |s| :: b[i] == s[i] as int)
  {
    seq(|s|, i requires 0 <= i < |s| => s[i] as int % 256)
  }

  function Chars(b: seq<byte>): (s: string)
    ensures |s| == |b| && forall i | 0 <= i < |b| :: s[i] as int == b[i]
  {
    seq(|b|, i requires 0 <= i < |b| => b[i] as char)
  }

  lemma OctetsOfChars(b: seq<byte>)
    ensures ByteText(Chars(b)) && Octets(Chars(b)) == b
  {
  }

  lemma CharsOfOctets(s: string)
    requires ByteText(s)
    ensures Chars(Octets(s)) == s
  {
  }

  lemma {:induction false} Utf8IsBytes(s: string)
    requires IsUtf8(s)
    ensures ByteText(s)
    decreases |s|
  {
    if s != "" {
      EncodeOfFirst(s);
      var d := First(s).value;
      Utf8IsBytes(s[d.size..]);
      assert forall i | 0 <= i < |s| :: s[i] == if i < d.size then Encode(d.point)[i] else s[d.size..][i - d.size];
    }
  }

  /** The base64url text of a field. */
  function Field64(s: string): string {
    Url64(Octets(s))
  }

  lemma Field64Injective(s: string, t: string)
    requires ByteText(s) && ByteText(t) && Field64(s) == Field64(t)
    ensures s == t
  {
    Url64Injective(Octets(s), Octets(t));
    CharsOfOctets(s);
    CharsOfOctets(t);
  }

  predicate IsAscii(s: string) {
    forall i | 0 <= i < |s| :: s[i] as int < 0x80
  }

  lemma AsciiField(s: string)
    requires IsAscii(s) && s != "" && |s| <= MAX_FIELD
    ensures FieldText(s)
  {
    AsciiText(s);
  }

  lemma TokenField(value: string, bytes: nat)
    requires IsToken(value, bytes)
    ensures FieldText(value)
  {
    AsciiField(value);
  }

  lemma KeyIdField(keyId: string)
    requires KeyIdValid(keyId)
    ensures IsAscii(keyId) && FieldText(keyId)
  {
    assert forall i | 7 <= i < |keyId| :: keyId[i] == keyId[7..][i - 7];
    assert forall i | 0 <= i < 7 :: keyId[i] == "sha256:"[i];
    AsciiField(keyId);
  }

  /** The first position of a character, or the length of the text. */
  function Find(s: string, c: char): (n: nat)
    ensures n <= |s| && (n < |s| ==> s[n] == c) && forall i | 0 <= i < n :: s[i] != c
  {
    if s == "" || s[0] == c then 0 else 1 + Find(s[1..], c)
  }

  lemma {:induction false} FindFirst(x: string, rest: string, c: char)
    requires c !in x
    ensures Find(x + [c] + rest, c) == |x|
  {
    var s := x + [c] + rest;
    assert s[|x|] == c;
    assert forall i | 0 <= i < |x| :: s[i] in x;
  }

  /** Texts without the separator are determined by what they are separated from. */
  lemma CutAt(separator: char, x: string, a: string, y: string, b: string)
    requires separator !in x && separator !in y && x + [separator] + a == y + [separator] + b
    ensures x == y && a == b
  {
    var left, right := x + [separator] + a, y + [separator] + b;
    assert left[|x|] == right[|y|] == separator;
    assert forall i | 0 <= i < |x| :: left[i] in x;
    assert forall i | 0 <= i < |y| :: right[i] in y;
    assert x == left[..|x|] && y == right[..|y|];
    assert a == left[|x| + 1..] && b == right[|y| + 1..];
  }
}
