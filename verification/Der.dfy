/**
 The DER form of a P-256 signature: a SEQUENCE of two INTEGERs (section 2.2.3 of RFC 3279), each in the minimal
 two's-complement form of section 8.3 of X.690. Conversion from and to the fixed 64-byte form is proved to be a
 bijection between the signatures in range and the DER strings that the reader accepts.
 */
module Der {
  import opened Wrappers
  import opened Base64
  import opened P256

  // ----- The reference encoding -----

  /** Without its leading zero bytes, but never empty. */
  function Strip(s: seq<byte>): (m: seq<byte>)
    requires s != []
    ensures m != [] && |m| <= |s|
    ensures |m| > 1 ==> m[0] != 0
  {
    if |s| > 1 && s[0] == 0 then Strip(s[1..]) else s
  }

  function Zeros(n: nat): (z: seq<byte>)
    ensures |z| == n && forall i | 0 <= i < n :: z[i] == 0
  {
    seq(n, i => 0)
  }

  function Fill(m: seq<byte>): (s: Scalar)
    requires |m| <= 32
  {
    Zeros(32 - |m|) + m
  }

  lemma {:induction false} FillOfStrip(s: seq<byte>)
    requires s != []
    ensures Zeros(|s| - |Strip(s)|) + Strip(s) == s
  {
    if |s| > 1 && s[0] == 0 {
      FillOfStrip(s[1..]);
      assert s == [0] + s[1..];
    }
  }

  lemma {:induction false} StripOfZeros(n: nat, m: seq<byte>)
    requires m != [] && (|m| > 1 ==> m[0] != 0)
    ensures Strip(Zeros(n) + m) == m
  {
    if n == 0 {
      assert Zeros(0) + m == m;
    } else {
      assert (Zeros(n) + m)[1..] == Zeros(n - 1) + m;
      StripOfZeros(n - 1, m);
    }
  }

  /** INTEGER: a zero byte keeps a magnitude with its top bit set positive. */
  function Content(m: seq<byte>): seq<byte>
    requires m != []
  {
    if m[0] >= 0x80 then [0] + m else m
  }

  function DerInteger(scalar: Scalar): (e: seq<byte>)
    ensures 3 <= |e| <= 35
  {
    var c := Content(Strip(scalar));
    [0x02, |c|] + c
  }

  function DerSignature(signature: Signature): (e: seq<byte>)
    ensures 8 <= |e| <= 72
  {
    var body := DerInteger(R(signature)) + DerInteger(S(signature));
    [0x30, |body|] + body
  }

  // ----- Writing -----

  method AppendDerInteger(output: seq<byte>, scalar: Scalar) returns (out: seq<byte>)
    ensures out == output + DerInteger(scalar)
  {
    var first := 0;
    while first < 31 && scalar[first] == 0
      invariant first <= 31
      invariant Strip(scalar) == Strip(scalar[first..])
    {
      assert scalar[first..][1..] == scalar[first + 1..];
      first := first + 1;
    }
    assert Strip(scalar) == scalar[first..];
    var magnitudeSize := 32 - first;
    var protectSign := scalar[first] >= 0x80;
    out := output + [0x02] + [magnitudeSize + if protectSign then 1 else 0];
    if protectSign {
      out := out + [0];
    }
    out := out + scalar[first..];
    assert out == output + DerInteger(scalar);
  }

  method P1363ToDer(signature: Signature) returns (out: Option<seq<byte>>)
    ensures out == if InRange(signature) then Some(DerSignature(signature)) else None
  {
    var inRange := SignatureInRange(signature);
    if !inRange {
      out := None;
      return;
    }
    var body := AppendDerInteger([], R(signature));
    body := AppendDerInteger(body, S(signature));
    assert body == DerInteger(R(signature)) + DerInteger(S(signature));
    assert [0x30] + [|body|] + body == DerSignature(signature);
    out := Some([0x30] + [|body|] + body);
  }

  // ----- Reading -----

  datatype Read = Read(magnitude: seq<byte>, next: nat)

  /** The magnitude of minimal nonnegative content, at most 32 bytes of it. */
  function Magnitude(value: seq<byte>): (m: Option<seq<byte>>)
    requires value != []
    ensures m.Some? ==> 1 <= |m.value| <= 32
  {
    if value[0] >= 0x80 then None
    else if value[0] == 0 && (|value| == 1 || value[1] < 0x80) then None
    else
      var magnitude := if value[0] == 0 then value[1..] else value;
      if |magnitude| > 32 then None else Some(magnitude)
  }

  function ReadDerInteger(der: seq<byte>, offset: nat): (r: Option<Read>)
    requires offset <= |der|
    ensures r.Some? ==> offset + 2 < r.value.next <= |der| && 1 <= |r.value.magnitude| <= 32
  {
    if offset + 2 > |der| || der[offset] != 0x02 then None
    else
      var encodedSize: int := der[offset + 1];
      if encodedSize == 0 || encodedSize >= 0x80 || offset + 2 + encodedSize > |der| then None
      else
        var magnitude := Magnitude(der[offset + 2..offset + 2 + encodedSize]);
        if magnitude.None? then None else Some(Read(magnitude.value, offset + 2 + encodedSize))
  }

  lemma ContentOfMagnitude(value: seq<byte>)
    requires value != [] && Magnitude(value).Some?
    ensures var m := Magnitude(value).value; Content(m) == value && (|m| > 1 ==> m[0] != 0)
  {
    if value[0] == 0 {
      assert value == [0] + value[1..];
    }
  }

  lemma MagnitudeOfContent(m: seq<byte>)
    requires 1 <= |m| <= 32 && (|m| > 1 ==> m[0] != 0) && m != [0]
    ensures Magnitude(Content(m)) == Some(m)
  {
    if m[0] >= 0x80 {
      assert Content(m)[1..] == m;
    }
  }

  lemma ReadIsInteger(der: seq<byte>, offset: nat)
    requires offset <= |der| && ReadDerInteger(der, offset).Some?
    ensures var r := ReadDerInteger(der, offset).value;
            der[offset..r.next] == DerInteger(Fill(r.magnitude))
  {
    var r := ReadDerInteger(der, offset).value;
    var value := der[offset + 2..r.next];
    ContentOfMagnitude(value);
    StripOfZeros(32 - |r.magnitude|, r.magnitude);
    assert der[offset..r.next] == [0x02, |value|] + value;
  }

  lemma ReadOfContent(der: seq<byte>, offset: nat, c: seq<byte>)
    requires offset <= |der| && 1 <= |c| < 0x80 && [0x02, |c|] + c <= der[offset..]
    requires Magnitude(c).Some?
    ensures ReadDerInteger(der, offset) == Some(Read(Magnitude(c).value, offset + 2 + |c|))
  {
    var e: seq<byte> := [0x02, |c|] + c;
    PrefixAt(der, offset, e);
    assert e[2..] == c;
  }

  lemma {:induction false} ReadOfInteger(der: seq<byte>, offset: nat, scalar: Scalar)
    requires offset <= |der| && DerInteger(scalar) <= der[offset..]
    requires Strip(scalar) != [0]
    ensures ReadDerInteger(der, offset) == Some(Read(Strip(scalar), offset + |DerInteger(scalar)|))
  {
    var m := Strip(scalar);
    MagnitudeOfContent(m);
    ReadOfContent(der, offset, Content(m));
  }

  lemma PrefixAt(der: seq<byte>, offset: nat, e: seq<byte>)
    requires offset <= |der| && e <= der[offset..] && |e| >= 2
    ensures offset + |e| <= |der| && der[offset] == e[0] && der[offset + 1] == e[1]
    ensures der[offset + 2..offset + |e|] == e[2..]
  {
    var d := der[offset..];
    assert der[offset] == d[0] && der[offset + 1] == d[1];
    assert der[offset + 2..offset + |e|] == d[..|e|][2..];
  }

  lemma {:induction false} ZeroStrip(s: seq<byte>)
    requires s != [] && Strip(s) == [0]
    ensures Value(s) == 0
  {
    FillOfStrip(s);
    assert forall i | 0 <= i < |s| :: s[i] == 0;
    AllZero(s);
  }

  lemma {:induction false} AllZero(s: seq<byte>)
    requires forall i | 0 <= i < |s| :: s[i] == 0
    ensures Value(s) == 0
  {
    if s != [] {
      AllZero(s[..|s| - 1]);
    }
  }

  /** A SEQUENCE of two INTEGERs of at most 32 bytes that fills the input. */
  function ReadDerSignature(der: seq<byte>): Option<Signature> {
    if |der| < 8 || |der| > 72 || der[0] != 0x30 || der[1] >= 0x80 || der[1] as int + 2 != |der| then None
    else
      var r := ReadDerInteger(der, 2);
      if r.None? then None
      else
        var s := ReadDerInteger(der, r.value.next);
        if s.None? || s.value.next != |der| then None
        else Some(Fill(r.value.magnitude) + Fill(s.value.magnitude))
  }

  lemma ReadIsSignature(der: seq<byte>)
    requires ReadDerSignature(der).Some?
    ensures DerSignature(ReadDerSignature(der).value) == der
  {
    var r := ReadDerInteger(der, 2).value;
    var s := ReadDerInteger(der, r.next).value;
    var candidate: Signature := Fill(r.magnitude) + Fill(s.magnitude);
    assert R(candidate) == Fill(r.magnitude) && S(candidate) == Fill(s.magnitude);
    ReadIsInteger(der, 2);
    ReadIsInteger(der, r.next);
    assert der[2..] == der[2..r.next] + der[r.next..s.next];
    assert der == [der[0], der[1]] + der[2..];
  }

  lemma {:induction false} NonzeroStrip(s: Scalar)
    requires Value(s) > 0
    ensures Strip(s) != [0] && Fill(Strip(s)) == s
  {
    FillOfStrip(s);
    if Strip(s) == [0] {
      ZeroStrip(s);
    }
  }

  lemma {:induction false} ReadOfPair(der: seq<byte>, r: Scalar, s: Scalar)
    requires Strip(r) != [0] && Strip(s) != [0]
    requires |der| >= 2 && der[2..] == DerInteger(r) + DerInteger(s)
    ensures ReadDerInteger(der, 2) == Some(Read(Strip(r), 2 + |DerInteger(r)|))
    ensures ReadDerInteger(der, 2 + |DerInteger(r)|) == Some(Read(Strip(s), |der|))
  {
    ReadOfParts(der, r, s, DerInteger(r), DerInteger(s));
  }

  lemma {:induction false} ReadOfParts(der: seq<byte>, r: Scalar, s: Scalar, first: seq<byte>, second: seq<byte>)
    requires Strip(r) != [0] && Strip(s) != [0] && first == DerInteger(r) && second == DerInteger(s)
    requires |der| >= 2 && der[2..] == first + second
    ensures ReadDerInteger(der, 2) == Some(Read(Strip(r), 2 + |first|))
    ensures ReadDerInteger(der, 2 + |first|) == Some(Read(Strip(s), |der|))
  {
    TwoParts(der, first, second);
    ReadOfInteger(der, 2, r);
    ReadOfInteger(der, 2 + |first|, s);
  }

  lemma TwoParts(der: seq<byte>, first: seq<byte>, second: seq<byte>)
    requires |der| >= 2 && der[2..] == first + second
    ensures first <= der[2..] && |der| == 2 + |first| + |second|
    ensures second <= der[2 + |first|..]
  {
    assert der[2 + |first|..] == der[2..][|first|..];
  }

  lemma HeaderOfSignature(signature: Signature)
    ensures var der := DerSignature(signature);
            && 8 <= |der| <= 72 && der[0] == 0x30 && der[1] < 0x80 && der[1] as int + 2 == |der|
            && der[2..] == DerInteger(R(signature)) + DerInteger(S(signature))
  {
  }

  lemma ReadOfSignature(signature: Signature)
    requires InRange(signature)
    ensures ReadDerSignature(DerSignature(signature)) == Some(signature)
  {
    HeaderOfSignature(signature);
    NonzeroStrip(R(signature));
    NonzeroStrip(S(signature));
    ReadOfHeader(DerSignature(signature), R(signature), S(signature));
    assert signature[..32] + signature[32..] == signature;
  }

  lemma {:induction false} ReadOfHeader(der: seq<byte>, r: Scalar, s: Scalar)
    requires 8 <= |der| <= 72 && der[0] == 0x30 && der[1] < 0x80 && der[1] as int + 2 == |der|
    requires der[2..] == DerInteger(r) + DerInteger(s)
    requires Strip(r) != [0] && Fill(Strip(r)) == r && Strip(s) != [0] && Fill(Strip(s)) == s
    ensures ReadDerSignature(der) == Some(r + s)
  {
    ReadOfPair(der, r, s);
  }

  /** Accepts exactly the encodings of signatures in range, each as the signature it encodes. */
  method DerToP1363(der: seq<byte>) returns (out: Option<Signature>)
    ensures out.Some? ==> InRange(out.value) && DerSignature(out.value) == der
    ensures forall signature | InRange(signature) && DerSignature(signature) == der :: out == Some(signature)
  {
    forall signature: Signature | InRange(signature) && DerSignature(signature) == der
      ensures ReadDerSignature(der) == Some(signature)
    {
      ReadOfSignature(signature);
    }
    out := ReadDerSignature(der);
    if out.None? {
      return;
    }
    ReadIsSignature(der);
    var inRange := SignatureInRange(out.value);
    if !inRange {
      out := None;
    }
  }

  /** Two signatures in range never share an encoding. */
  lemma DerSignatureInjective(a: Signature, b: Signature)
    requires InRange(a) && InRange(b) && DerSignature(a) == DerSignature(b)
    ensures a == b
  {
    ReadOfSignature(a);
    ReadOfSignature(b);
  }
}
