/**
 The line-breaking base64 coder of `base/base64.cpp`. It spells and accepts the same canonical texts as the coder
 of `spki.cpp`, and decoding undoes encoding for every line length.
 */
module LineBase64 {
  import opened Wrappers
  import opened Base64
  import opened Texts
  import opened CanonicalBase64

  function RemoveLineBreaks(s: string): string {
    if s == "" then ""
    else RemoveLineBreaks(s[..|s| - 1]) + (if s[|s| - 1] == '\n' || s[|s| - 1] == '\r' then "" else [s[|s| - 1]])
  }

  ghost predicate NoLineBreak(s: string) {
    forall i | 0 <= i < |s| :: s[i] != '\n' && s[i] != '\r'
  }

  lemma {:induction false} NothingToRemove(s: string)
    requires NoLineBreak(s)
    ensures RemoveLineBreaks(s) == s
  {
    if s != "" {
      NothingToRemove(s[..|s| - 1]);
    }
  }

  lemma {:induction false} NoneLeft(s: string)
    ensures NoLineBreak(RemoveLineBreaks(s))
  {
    if s != "" {
      NoneLeft(s[..|s| - 1]);
    }
  }

  lemma {:induction false} RemoveLast(s: string, c: char)
    ensures RemoveLineBreaks(s + [c]) == RemoveLineBreaks(s) + (if c == '\n' || c == '\r' then "" else [c])
  {
    assert (s + [c])[..|s|] == s;
  }

  // ----- Encoding -----

  function AddLineBreakIfNeeded(buffer: string, lineLength: int): string {
    if lineLength > 0 && (|buffer| + 1) % lineLength == 0 then buffer + "\n" else buffer
  }

  /** Where a line break stands in an encoded text: it ends lines of `lineLength - 1` characters, or of one. */
  predicate IsBreak(p: nat, lineLength: int) {
    if lineLength <= 0 then false
    else if lineLength == 1 then p % 2 == 0
    else (p + 1) % lineLength == 0
  }

  ghost predicate Broken(s: string, lineLength: int) {
    && (lineLength == 1 ==> |s| % 2 == 0)
    && forall p: nat | p < |s| :: s[p] == '\n' <==> IsBreak(p, lineLength)
  }

  lemma AtLeastOnce(k: int, m: nat)
    ensures k >= 1 ==> k * m >= m
    ensures k <= -1 ==> k * m + m <= 0
  {
  }

  /** Two breaks never follow each other. */
  lemma BreakThenCharacter(n: nat, lineLength: int)
    requires lineLength >= 2 && n % lineLength == 0
    ensures (n + 1) % lineLength != 0
  {
    var k := (n + 1) / lineLength - n / lineLength;
    assert k * lineLength == 1 - (n + 1) % lineLength;
    AtLeastOnce(k, lineLength);
  }

  lemma PutKeepsBroken(s: string, c: char, lineLength: int)
    requires Broken(s, lineLength) && c != '\n'
    ensures Broken(AddLineBreakIfNeeded(s, lineLength) + [c], lineLength)
  {
    if lineLength >= 2 && (|s| + 1) % lineLength == 0 {
      BreakThenCharacter(|s| + 1, lineLength);
    }
  }

  lemma {:induction false} PutRemoves(s: string, c: char, lineLength: int)
    requires c != '\n' && c != '\r'
    ensures RemoveLineBreaks(AddLineBreakIfNeeded(s, lineLength) + [c]) == RemoveLineBreaks(s) + [c]
  {
    RemoveLast(s, '\n');
    RemoveLast(AddLineBreakIfNeeded(s, lineLength), c);
  }

  /** Appends the characters of `text`, each after the line break it may need. */
  method Emit(buffer: string, text: string, lineLength: int) returns (out: string)
    requires NoLineBreak(text) && Broken(buffer, lineLength)
    ensures RemoveLineBreaks(out) == RemoveLineBreaks(buffer) + text
    ensures Broken(out, lineLength) && (text != "" ==> out != "" && out[|out| - 1] != '\n')
    ensures lineLength <= 0 ==> out == buffer + text
  {
    out := buffer;
    for i := 0 to |text|
      invariant RemoveLineBreaks(out) == RemoveLineBreaks(buffer) + text[..i]
      invariant Broken(out, lineLength) && (i > 0 ==> out != "" && out[|out| - 1] == text[i - 1])
      invariant lineLength <= 0 ==> out == buffer + text[..i]
    {
      assert text[..i + 1] == text[..i] + [text[i]];
      PutRemoves(out, text[i], lineLength);
      PutKeepsBroken(out, text[i], lineLength);
      out := AddLineBreakIfNeeded(out, lineLength);
      out := out + [text[i]];
    }
    assert text[..|text|] == text;
  }

  lemma QuadTextHasNoLineBreak(d: seq<sextet>)
    requires 2 <= |d| <= 4
    ensures NoLineBreak(QuadText(d))
  {
  }

  lemma NextGroup(bin: seq<byte>, byteNo: nat)
    requires byteNo + 3 <= |bin|
    ensures Padded(Tail(bin, byteNo)) == Quad(bin[byteNo..byteNo + 3]) + Padded(Tail(bin, byteNo + 3))
  {
    PaddedStep(bin, byteNo);
    var t := Tail(bin, byteNo);
    assert (if |t| <= 3 then t else t[..3]) == bin[byteNo..byteNo + 3];
  }

  lemma LastGroup(bin: seq<byte>, byteNo: nat)
    requires byteNo <= |bin| < byteNo + 3
    ensures Padded(Tail(bin, byteNo)) == if byteNo == |bin| then "" else Quad(bin[byteNo..])
  {
  }

  /**
   Encodes in lines that all end with a line break; zero means no line breaks at all, and a negative length one at the
   end. With the characters and the places of the breaks, this is the whole output.
   */
  method Encode(bin: seq<byte>, lineLength: int) returns (encodeBuffer: string)
    ensures RemoveLineBreaks(encodeBuffer) == Padded(bin)
    ensures lineLength == 0 ==> encodeBuffer == Padded(bin)
    ensures lineLength != 0 && Padded(bin) != "" ==>
              && encodeBuffer != "" && encodeBuffer[|encodeBuffer| - 1] == '\n'
              && Broken(encodeBuffer[..|encodeBuffer| - 1], lineLength)
  {
    encodeBuffer := "";
    var byteNo := 0;
    ghost var rest := Padded(bin);
    assert Tail(bin, 0) == bin;
    while byteNo + 2 < |bin|
      invariant byteNo <= |bin| && rest == Padded(Tail(bin, byteNo))
      invariant RemoveLineBreaks(encodeBuffer) + rest == Padded(bin)
      invariant Broken(encodeBuffer, lineLength)
      invariant encodeBuffer != "" ==> encodeBuffer[|encodeBuffer| - 1] != '\n'
      invariant lineLength == 0 ==> encodeBuffer + rest == Padded(bin)
    {
      NextGroup(bin, byteNo);
      var quad := EncodeGroup(bin[byteNo..byteNo + 3]);
      ghost var rest' := Padded(Tail(bin, byteNo + 3));
      Assoc(RemoveLineBreaks(encodeBuffer), quad, rest');
      Assoc(encodeBuffer, quad, rest');
      encodeBuffer := Emit(encodeBuffer, quad, lineLength);
      byteNo, rest := byteNo + 3, rest';
    }
    LastGroup(bin, byteNo);
    if byteNo < |bin| {
      var quad := EncodeGroup(bin[byteNo..]);
      encodeBuffer := Emit(encodeBuffer, quad, lineLength);
    }
    encodeBuffer := EndLine(encodeBuffer, lineLength);
  }

  method EndLine(buffer: string, lineLength: int) returns (out: string)
    ensures RemoveLineBreaks(out) == RemoveLineBreaks(buffer)
    ensures out == if lineLength != 0 && buffer != "" && buffer[|buffer| - 1] != '\n' then buffer + "\n" else buffer
  {
    out := buffer;
    if lineLength != 0 && out != "" && out[|out| - 1] != '\n' {
      RemoveLast(out, '\n');
      out := out + "\n";
    }
  }

  method EncodeGroup(g: seq<byte>) returns (quad: string)
    requires 1 <= |g| <= 3
    ensures quad == Quad(g) && NoLineBreak(quad)
  {
    var d: seq<sextet>;
    if |g| == 3 {
      assert Sextets(g[3..]) == [];
      d := [g[0] / 4, g[0] % 4 * 16 + g[1] / 16, g[1] % 16 * 4 + g[2] / 64, g[2] % 64];
    } else if |g| == 2 {
      d := [g[0] / 4, g[0] % 4 * 16 + g[1] / 16, g[1] % 16 * 4];
    } else {
      d := [g[0] / 4, g[0] % 4 * 16];
    }
    assert d == Sextets(g);
    QuadTextHasNoLineBreak(d);
    quad := QuadText(d);
  }

  // ----- Decoding -----

  /** The lookup table: characters outside the alphabet map to zero. */
  function Unb64(c: char): sextet {
    if IsStdChar(c) then DecodeCharacter(c) else 0
  }

  /** The number of padding characters a text ends with. */
  function PadOf(s: string): (pad: nat) {
    if |s| < 2 || s[|s| - 1] != '=' then 0 else if s[|s| - 2] != '=' then 1 else 2
  }

  /** Alphabet characters, then at most two of padding, with the spare bits zero. */
  ghost predicate Spelled(s: string) {
    && |s| >= 4
    && (forall i | 0 <= i < |s| - PadOf(s) :: IsStdChar(s[i]))
    && (PadOf(s) == 1 ==> Unb64(s[|s| - 2]) % 4 == 0)
    && (PadOf(s) == 2 ==> Unb64(s[|s| - 3]) % 16 == 0)
  }

  method ValidateBase64Spelling(value: string) returns (ok: bool, pad: nat)
    ensures ok <==> |value| % 4 == 0 && Spelled(value)
    ensures ok ==> pad == PadOf(value)
  {
    ok, pad := false, 0;
    if |value| == 0 || |value| % 4 != 0 {
      return;
    }
    assert |value| >= 4;
    var paddingStarted := false;
    for i := 0 to |value|
      invariant pad <= 2 && pad <= i && (paddingStarted <==> pad > 0)
      invariant pad > 0 ==> i - pad >= |value| - 2
      invariant forall k | 0 <= k < i - pad :: IsStdChar(value[k])
      invariant forall k | i - pad <= k < i :: value[k] == '='
    {
      var ch := value[i];
      if ch == '=' {
        paddingStarted := true;
        pad := pad + 1;
        if pad > 2 || i < |value| - 2 {
          assert value[i] == '=';
          return;
        }
      } else if paddingStarted || !IsStdChar(ch) {
        assert pad > 0 ==> value[i - 1] == '=';
        return;
      }
    }
    assert pad == PadOf(value);
    if pad == 1 && Unb64(value[|value| - 2]) % 4 != 0 {
      return;
    }
    if pad == 2 && Unb64(value[|value| - 3]) % 16 != 0 {
      return;
    }
    ok := true;
  }

  lemma SpelledQuad(s: string)
    requires |s| == 4
    ensures Spelled(s) <==> Unquad(s, true).Some?
  {
    if PadOf(s) == 0 {
      UnpaddedQuad(s);
    }
  }

  lemma UnpaddedQuad(s: string)
    requires |s| == 4 && s[3] != '='
    ensures Unquad(s, true).Some? <==> forall i | 0 <= i < 4 :: IsStdChar(s[i])
  {
    var a, b, c, d := DecodeCharacter(s[0]), DecodeCharacter(s[1]), DecodeCharacter(s[2]), DecodeCharacter(s[3]);
    if a >= 0 && b >= 0 && c >= 0 && d >= 0 {
      FullGroup(a, b, c, d);
    }
  }

  lemma FullGroup(a: sextet, b: sextet, c: sextet, d: sextet)
    ensures Bytes([a, b, c, d]) == Some(Group(a, b, c, d))
  {
    var q: seq<sextet> := [a, b, c, d];
    assert q[4..] == [];
    assert Group(a, b, c, d) + [] == Group(a, b, c, d);
    assert Bytes(q) == Some(Group(a, b, c, d) + []);
  }

  lemma UnquadInner(q: string)
    requires |q| == 4
    ensures Unquad(q, false).Some? <==> forall i | 0 <= i < 4 :: IsStdChar(q[i])
    ensures Unquad(q, false).Some? ==> Unquad(q, false).value == Group(Unb64(q[0]), Unb64(q[1]), Unb64(q[2]), Unb64(q[3]))
  {
    var a, b, c, d := DecodeCharacter(q[0]), DecodeCharacter(q[1]), DecodeCharacter(q[2]), DecodeCharacter(q[3]);
    if a >= 0 && b >= 0 && c >= 0 && d >= 0 {
      FullGroup(a, b, c, d);
    }
  }

  /** The spelling rules accept exactly the canonical texts. */
  lemma {:induction false} SpelledIsCanonical(s: string, quads: nat)
    requires |s| == 4 * quads && quads > 0
    ensures Spelled(s) <==> Unpad(s).Some?
  {
    if |s| == 4 {
      SpelledQuad(s);
    } else {
      var rest := s[4..];
      SpelledIsCanonical(rest, quads - 1);
      UnquadInner(s[..4]);
      assert PadOf(s) == PadOf(rest);
      assert Spelled(s) <==> (forall i | 0 <= i < 4 :: IsStdChar(s[i])) && Spelled(rest) by {
        assert forall i | 0 <= i < |rest| :: rest[i] == s[i + 4];
        assert forall i | 4 <= i < |s| :: s[i] == rest[i - 4];
      }
    }
  }

  lemma ShiftOut(a: sextet, b: sextet, c: sextet, d: sextet)
    ensures [a * 4 + b / 16, b * 16 % 256 + c / 4, c * 64 % 256 + d] == Group(a, b, c, d)
  {
    KeepLow4(b);
    KeepLow2(c);
  }

  lemma KeepLow4(b: sextet)
    ensures b * 16 % 256 == b % 16 * 16
  {
  }

  lemma KeepLow2(c: sextet)
    ensures c * 64 % 256 == c % 4 * 64
  {
  }

  /** The bytes of a canonical text, line breaks ignored; nothing for any other text. */
  method Unbase64(base64Data: string) returns (bin: seq<byte>)
    ensures var s := RemoveLineBreaks(base64Data);
            bin == if Unpad(s).Some? then Unpad(s).value else []
  {
    var s := RemoveLineBreaks(base64Data);
    bin := [];
    var ok, pad := ValidateBase64Spelling(s);
    if |s| % 4 == 0 && |s| > 0 {
      SpelledIsCanonical(s, |s| / 4);
    } else if Unpad(s).Some? {
      UnpadLength(s);
    }
    if !ok {
      return;
    }
    bin := DecodeSpelled(s, pad, |s| / 4);
  }

  lemma UnpadAt(s: string, at: nat)
    requires at + 4 <= |s|
    ensures Unpad(s[at..]).Some? ==>
              var last := at + 4 == |s|;
              && Unquad(s[at..at + 4], last).Some? && Unpad(s[at + 4..]).Some?
              && Unpad(s[at..]).value == Unquad(s[at..at + 4], last).value + Unpad(s[at + 4..]).value
  {
    UnpadStep(s[at..]);
    assert s[at..][..4] == s[at..at + 4] && s[at..][4..] == s[at + 4..];
  }

  method DecodeSpelled(s: string, pad: nat, fullQuads: nat) returns (bin: seq<byte>)
    requires |s| == 4 * fullQuads && Unpad(s).Some? && Spelled(s) && pad == PadOf(s)
    ensures bin == Unpad(s).value
  {
    var dataQuads := if pad == 0 then fullQuads else fullQuads - 1;
    bin := DecodeQuads(s, dataQuads, fullQuads);
    if pad == 0 {
      assert s[4 * dataQuads..] == "";
    } else {
      var g := DecodeLast(s[4 * dataQuads..], pad);
      bin := bin + g;
    }
  }

  method DecodeQuads(s: string, dataQuads: nat, fullQuads: nat) returns (bin: seq<byte>)
    requires |s| == 4 * fullQuads && dataQuads <= fullQuads && Unpad(s).Some?
    requires forall i | 0 <= i < 4 * dataQuads :: IsStdChar(s[i])
    ensures var rest := Unpad(s[4 * dataQuads..]); rest.Some? && Unpad(s).value == bin + rest.value
  {
    bin := [];
    assert s[0..] == s;
    for quad := 0 to dataQuads
      invariant Unpad(s[4 * quad..]).Some? && Unpad(s).value == bin + Unpad(s[4 * quad..]).value
    {
      UnpadAt(s, 4 * quad);
      var g := DecodeInner(s[4 * quad..4 * quad + 4], quad + 1 == fullQuads);
      bin := bin + g;
    }
  }

  method DecodeInner(q: string, ghost last: bool) returns (g: seq<byte>)
    requires |q| == 4 && (forall i | 0 <= i < 4 :: IsStdChar(q[i]))
    ensures Unquad(q, last) == Some(g)
  {
    LastOrInner(q, last);
    var A: int, B: int, C: int, D: int := Unb64(q[0]), Unb64(q[1]), Unb64(q[2]), Unb64(q[3]);
    ShiftOut(A, B, C, D);
    g := [A * 4 + B / 16, B * 16 % 256 + C / 4, C * 64 % 256 + D];
  }

  lemma TopByte(a: sextet, b: sextet)
    ensures 0 <= a * 4 + b / 16 < 256
  {
  }

  lemma MiddleByte(b: sextet, c: sextet)
    ensures 0 <= b * 16 % 256 + c / 4 < 256
  {
    KeepLow4(b);
  }

  method DecodeLast(q: string, pad: nat) returns (g: seq<byte>)
    requires |q| == 4 && Unquad(q, true).Some? && (pad == 1 || pad == 2) && pad == PadOf(q)
    ensures g == Unquad(q, true).value
  {
    var A: int, B: int, C: int := Unb64(q[0]), Unb64(q[1]), Unb64(q[2]);
    PaddedGroup(q, pad);
    TopByte(A, B);
    MiddleByte(B, C);
    var top: byte, middle: byte := A * 4 + B / 16, B * 16 % 256 + C / 4;
    g := if pad == 1 then [top, middle] else [top];
  }

  lemma LastOrInner(q: string, last: bool)
    requires |q| == 4 && (forall i | 0 <= i < 4 :: IsStdChar(q[i]))
    ensures Unquad(q, last) == Some(Group(Unb64(q[0]), Unb64(q[1]), Unb64(q[2]), Unb64(q[3])))
  {
    UnquadInner(q);
    assert Unquad(q, last) == Unquad(q, false);
  }

  lemma PaddedGroup(q: string, pad: nat)
    requires |q| == 4 && Unquad(q, true).Some? && (pad == 1 || pad == 2) && pad == PadOf(q)
    ensures var A, B, C := Unb64(q[0]), Unb64(q[1]), Unb64(q[2]);
            Unquad(q, true).value ==
            if pad == 1 then [A * 4 + B / 16, B * 16 % 256 + C / 4] else [A * 4 + B / 16]
  {
    UnquadGroup(q, true);
    ShiftOut(Unb64(q[0]), Unb64(q[1]), Unb64(q[2]), 0);
    ShiftOut(Unb64(q[0]), Unb64(q[1]), 0, 0);
  }

  /** Decoding undoes encoding, for every line length. */
  method EncodeThenDecode(bin: seq<byte>, lineLength: int) returns (again: seq<byte>)
    ensures again == bin
  {
    var text := Encode(bin, lineLength);
    again := Unbase64(text);
    UnpadOfPadded(bin);
  }

  /** True for exactly the nonempty texts that the canonical coder accepts. */
  method IsCanonicalBase64(base64Data: string, allowLineBreaks: bool) returns (ok: bool)
    ensures ok <==>
            && (allowLineBreaks || NoLineBreak(base64Data))
            && RemoveLineBreaks(base64Data) != ""
            && Unpad(RemoveLineBreaks(base64Data)).Some?
  {
    ok := false;
    if !allowLineBreaks && ('\n' in base64Data || '\r' in base64Data) {
      return;
    }
    if !allowLineBreaks {
      NothingToRemove(base64Data);
    }
    var normalized := if allowLineBreaks then RemoveLineBreaks(base64Data) else base64Data;
    NoneLeft(base64Data);
    NothingToRemove(normalized);
    var decoded := Unbase64(normalized);
    var again := Encode(decoded, 0);
    if Unpad(normalized).Some? {
      PaddedOfUnpad(normalized);
    }
    UnpadOfPadded(decoded);
    ok := decoded != [] && again == normalized;
  }
}
