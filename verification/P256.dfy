/**
 P-256 signature scalars of `spki.cpp`: range and low-S tests, and normalisation by bytewise borrow
 subtraction, proved against the integers that the 32-byte strings denote. The group order is the one of
 section 2.4.2 of SEC 2.
 */
module P256 {
  import opened Wrappers
  import opened Base64

  type Scalar = s: seq<byte> | |s| == 32 witness seq(32, i => 0)
  type Signature = s: seq<byte> | |s| == 64 witness seq(64, i => 0)

  const HIGH: seq<byte> :=
    [0xff, 0xff, 0xff, 0xff, 0x00, 0x00, 0x00, 0x00, 0xff, 0xff, 0xff, 0xff, 0xff, 0xff, 0xff, 0xff]

  const LOW: seq<byte> :=
    [0xbc, 0xe6, 0xfa, 0xad, 0xa7, 0x17, 0x9e, 0x84, 0xf3, 0xb9, 0xca, 0xc2, 0xfc, 0x63, 0x25, 0x51]

  const ORDER: Scalar := HIGH + LOW

  const N := 0xffffffff_00000000_ffffffff_ffffffff_bce6faad_a7179e84_f3b9cac2_fc632551

  // ----- Big-endian integers -----

  function Pow256(n: nat): (p: nat)
    ensures p > 0
  {
    if n == 0 then 1 else 256 * Pow256(n - 1)
  }

  function Value(s: seq<byte>): (v: nat) {
    if s == [] then 0 else Value(s[..|s| - 1]) * 256 + s[|s| - 1]
  }

  lemma {:induction false} ValueSnoc(s: seq<byte>, b: byte)
    ensures Value(s + [b]) == Value(s) * 256 + b
  {
    assert (s + [b])[..|s|] == s;
  }

  lemma {:induction false} ValueCons(b: byte, s: seq<byte>)
    ensures Value([b] + s) == b * Pow256(|s|) + Value(s)
  {
    if s == [] {
      assert [b] + s == [] + [b];
      ValueSnoc([], b);
    } else {
      var init, last := s[..|s| - 1], s[|s| - 1];
      assert [b] + s == ([b] + init) + [last];
      ValueSnoc([b] + init, last);
      ValueCons(b, init);
      assert b * Pow256(|s|) == b * Pow256(|init|) * 256 by {
        assert Pow256(|s|) == 256 * Pow256(|init|);
      }
    }
  }

  lemma {:induction false} ValueBound(s: seq<byte>)
    ensures Value(s) < Pow256(|s|)
  {
    if s != [] {
      ValueBound(s[..|s| - 1]);
    }
  }

  /** `std::lexicographical_compare` on strings of one length. */
  ghost predicate LexLess(a: seq<byte>, b: seq<byte>)
    requires |a| == |b|
  {
    exists k | 0 <= k < |a| :: a[..k] == b[..k] && a[k] < b[k]
  }

  /** Comparing byte strings of one length compares the integers they denote. */
  lemma {:induction false} LexLessIsLess(a: seq<byte>, b: seq<byte>)
    requires |a| == |b|
    ensures LexLess(a, b) <==> Value(a) < Value(b)
    ensures Value(a) == Value(b) ==> a == b
  {
    if a != [] {
      var n := |a| - 1;
      var a', b' := a[..n], b[..n];
      LexLessIsLess(a', b');
      assert a == a' + [a[n]] && b == b' + [b[n]];
      if LexLess(a', b') {
        var k :| 0 <= k < n && a'[..k] == b'[..k] && a'[k] < b'[k];
        assert a[..k] == a'[..k] && b[..k] == b'[..k];
        assert LexLess(a, b);
      } else if a' == b' {
        if a[n] < b[n] {
          assert a[..n] == b[..n];
          assert LexLess(a, b);
        } else {
          forall k | 0 <= k < |a| && a[..k] == b[..k]
            ensures a[k] >= b[k]
          {
            if k < n {
              assert a'[k] == b'[k];
            }
          }
        }
      } else {
        forall k | 0 <= k < |a| && a[..k] == b[..k]
          ensures a[k] >= b[k]
        {
          if k < n {
            assert a'[..k] == a[..k] && b'[..k] == b[..k];
          }
        }
      }
    }
  }

  method Less(a: seq<byte>, b: seq<byte>) returns (less: bool)
    requires |a| == |b|
    ensures less <==> Value(a) < Value(b)
  {
    LexLessIsLess(a, b);
    for i := 0 to |a|
      invariant a[..i] == b[..i]
    {
      if a[i] != b[i] {
        less := a[i] < b[i];
        assert a[i] < b[i] ==> LexLess(a, b);
        if a[i] > b[i] {
          LexLessIsLess(b, a);
          assert b[..i] == a[..i];
          assert LexLess(b, a);
        }
        return;
      }
    }
    assert a == a[..|a|] && b == b[..|b|];
    less := false;
  }

  lemma {:induction false} AppendWord(p: seq<byte>, a: byte, b: byte, c: byte, d: byte, w: nat)
    requires w == a * 0x100_0000 + b * 0x1_0000 + c * 0x100 + d
    ensures Value(p + [a, b, c, d]) == Value(p) * 0x1_0000_0000 + w
  {
    ValueSnoc(p, a);
    ValueSnoc(p + [a], b);
    ValueSnoc(p + [a, b], c);
    ValueSnoc(p + [a, b, c], d);
    assert p + [a] + [b] == p + [a, b];
    assert p + [a, b] + [c] == p + [a, b, c];
    assert p + [a, b, c] + [d] == p + [a, b, c, d];
  }

  lemma HighValue()
    ensures Value(HIGH) == 0xffffffff_00000000_ffffffff_ffffffff
  {
    var p1: seq<byte> := [] + [0xff, 0xff, 0xff, 0xff];
    AppendWord([], 0xff, 0xff, 0xff, 0xff, 0xffff_ffff);
    var p2 := p1 + [0, 0, 0, 0];
    AppendWord(p1, 0, 0, 0, 0, 0);
    var p3 := p2 + [0xff, 0xff, 0xff, 0xff];
    AppendWord(p2, 0xff, 0xff, 0xff, 0xff, 0xffff_ffff);
    var p4 := p3 + [0xff, 0xff, 0xff, 0xff];
    AppendWord(p3, 0xff, 0xff, 0xff, 0xff, 0xffff_ffff);
    assert p4 == HIGH;
  }

  lemma {:induction false} AppendLow(p: seq<byte>)
    ensures Value(p + LOW) == Value(p) * 0x1_00000000_00000000_00000000_00000000
                              + 0xbce6faad_a7179e84_f3b9cac2_fc632551
  {
    AppendTwo(p, 0xbc, 0xe6, 0xfa, 0xad, 0xbce6_faad, 0xa7, 0x17, 0x9e, 0x84, 0xa717_9e84);
    var first: seq<byte>, second: seq<byte> := [0xbc, 0xe6, 0xfa, 0xad, 0xa7, 0x17, 0x9e, 0x84],
                                               [0xf3, 0xb9, 0xca, 0xc2, 0xfc, 0x63, 0x25, 0x51];
    AppendTwo(p + first, 0xf3, 0xb9, 0xca, 0xc2, 0xf3b9_cac2, 0xfc, 0x63, 0x25, 0x51, 0xfc63_2551);
    assert LOW == first + second;
    assert p + first + second == p + LOW;
  }

  lemma {:induction false} AppendTwo(p: seq<byte>, a: byte, b: byte, c: byte, d: byte, w: nat,
                                     e: byte, f: byte, g: byte, h: byte, x: nat)
    requires w == a * 0x100_0000 + b * 0x1_0000 + c * 0x100 + d
    requires x == e * 0x100_0000 + f * 0x1_0000 + g * 0x100 + h
    ensures Value(p + [a, b, c, d, e, f, g, h]) == Value(p) * 0x1_00000000_00000000 + w * 0x1_0000_0000 + x
  {
    AppendWord(p, a, b, c, d, w);
    AppendWord(p + [a, b, c, d], e, f, g, h, x);
    assert p + [a, b, c, d] + [e, f, g, h] == p + [a, b, c, d, e, f, g, h];
  }

  /** The bytes of the source denote the group order. */
  lemma OrderValue()
    ensures Value(ORDER) == N
  {
    HighValue();
    AppendLow(HIGH);
  }

  // ----- Range and low S -----

  method ScalarInRange(scalar: Scalar) returns (ok: bool)
    ensures ok <==> 0 < Value(scalar) < N
  {
    var nonzero := false;
    for index := 0 to 32
      invariant nonzero <==> Value(scalar[..index]) > 0
    {
      assert scalar[..index + 1] == scalar[..index] + [scalar[index]];
      ValueSnoc(scalar[..index], scalar[index]);
      nonzero := nonzero || scalar[index] != 0;
    }
    assert scalar[..32] == scalar;
    OrderValue();
    if !nonzero {
      ok := false;
      return;
    }
    ok := Less(scalar, ORDER);
  }

  function R(signature: Signature): Scalar {
    signature[..32]
  }

  function S(signature: Signature): Scalar {
    signature[32..]
  }

  ghost predicate InRange(signature: Signature) {
    0 < Value(R(signature)) < N && 0 < Value(S(signature)) < N
  }

  method SignatureInRange(signature: Signature) returns (ok: bool)
    ensures ok <==> InRange(signature)
  {
    ok := ScalarInRange(R(signature));
    if ok {
      ok := ScalarInRange(S(signature));
    }
  }

  /** Shifts right by one bit, byte by byte from the first; returns the bit that falls out. */
  method Halve(order: Scalar) returns (half: Scalar, carry: nat)
    ensures carry <= 1 && Value(half) * 2 + carry == Value(order)
  {
    var bytes: seq<byte> := [];
    carry := 0;
    for i := 0 to 32
      invariant |bytes| == i && carry <= 1
      invariant Value(bytes) * 2 + carry == Value(order[..i])
    {
      var h: byte := carry * 128 + order[i] / 2;
      assert order[..i + 1] == order[..i] + [order[i]];
      ValueSnoc(order[..i], order[i]);
      ValueSnoc(bytes, h);
      bytes := bytes + [h];
      carry := order[i] % 2;
    }
    assert order[..32] == order;
    half := bytes;
  }

  /** Low S: `s` is not above its negative modulo the group order. */
  method SignatureIsLowS(signature: Signature) returns (low: bool)
    ensures low <==> InRange(signature) && Value(S(signature)) <= N - Value(S(signature))
  {
    low := SignatureInRange(signature);
    if low {
      var half, _ := Halve(ORDER);
      OrderValue();
      var above := Less(half, S(signature));
      low := !above;
    }
  }

  // ----- Normalisation -----

  lemma BorrowStep(o: byte, s: byte, c: byte, borrow: int, borrow': int, w: nat, ov: int, sv: int, cv: int)
    requires c == o - s - borrow + 256 * borrow'
    requires ov == sv + cv - borrow * w
    ensures o * w + ov == (s * w + sv) + (c * w + cv) - borrow' * (256 * w)
  {
    calc {
      (s * w + sv) + (c * w + cv) - borrow' * (256 * w);
      s * w + c * w - 256 * borrow' * w + borrow * w + ov;
      { assert s * w + c * w - 256 * borrow' * w + borrow * w == (s + c - 256 * borrow' + borrow) * w; }
      (s + c - 256 * borrow' + borrow) * w + ov;
      o * w + ov;
    }
  }

  /** One byte of the subtraction: the identity on the suffixes extends by the next byte. */
  lemma {:induction false} SubtractByte(o: seq<byte>, s: seq<byte>, c: seq<byte>, ob: byte, sb: byte, cb: byte,
                                        borrow: int, borrow': int)
    requires |o| == |s| == |c|
    requires Value(o) == Value(s) + Value(c) - borrow * Pow256(|o|)
    requires cb == ob - sb - borrow + 256 * borrow'
    ensures Value([ob] + o) == Value([sb] + s) + Value([cb] + c) - borrow' * Pow256(|o| + 1)
  {
    ValueCons(ob, o);
    ValueCons(sb, s);
    ValueCons(cb, c);
    BorrowStep(ob, sb, cb, borrow, borrow', Pow256(|o|), Value(o), Value(s), Value(c));
  }

  lemma NoFinalBorrow(o: int, s: int, c: int, borrow: int, w: int)
    requires o == s + c - borrow * w && 0 <= borrow <= 1 && s < o && 0 <= c < w
    ensures c == o - s
  {
    assert borrow == 0 || borrow * w == w;
  }

  /** Subtracts `s` from the order from the last byte to the first, borrowing as it goes. */
  method SubtractFromOrder(s: Scalar) returns (candidate: Scalar)
    requires 0 < Value(s) < N
    ensures Value(candidate) == N - Value(s)
  {
    var tail: seq<byte> := [];
    var borrow: int := 0;
    var i := 32;
    while i > 0
      invariant 0 <= i <= 32 && |tail| == 32 - i && 0 <= borrow <= 1
      invariant Value(ORDER[i..]) == Value(s[i..]) + Value(tail) - borrow * Pow256(32 - i)
    {
      i := i - 1;
      var difference: int := ORDER[i] - s[i] - borrow;
      var c: byte := if difference < 0 then difference + 256 else difference;
      var borrow' := if difference < 0 then 1 else 0;
      assert ORDER[i..] == [ORDER[i]] + ORDER[i + 1..] && s[i..] == [s[i]] + s[i + 1..];
      SubtractByte(ORDER[i + 1..], s[i + 1..], tail, ORDER[i], s[i], c, borrow, borrow');
      tail := [c] + tail;
      borrow := borrow';
    }
    assert ORDER[0..] == ORDER && s[0..] == s;
    OrderValue();
    ValueBound(tail);
    NoFinalBorrow(N, Value(s), Value(tail), borrow, Pow256(32));
    candidate := tail;
  }

  ghost predicate LowS(signature: Signature) {
    Value(S(signature)) <= N - Value(S(signature))
  }

  /** A signature in range keeps r and gets the smaller of s and n - s; any other has no low-S form. */
  ghost predicate Normalized(signature: Signature, out: Option<Signature>) {
    && (out.Some? <==> InRange(signature))
    && (out.Some? ==>
          && InRange(out.value) && LowS(out.value)
          && R(out.value) == R(signature)
          && Value(S(out.value)) == if LowS(signature) then Value(S(signature)) else N - Value(S(signature)))
  }

  /** A low-S signature comes back unchanged. */
  method NormalizeLowS(signature: Signature) returns (out: Option<Signature>)
    ensures Normalized(signature, out)
    ensures InRange(signature) && LowS(signature) ==> out == Some(signature)
  {
    var inRange := SignatureInRange(signature);
    if !inRange {
      out := None;
      return;
    }
    var candidate := signature;
    var low := SignatureIsLowS(signature);
    if !low {
      var s := SubtractFromOrder(S(signature));
      candidate := R(signature) + s;
      assert R(candidate) == R(signature) && S(candidate) == s;
    }
    out := Some(candidate);
  }

  /** A low-S signature in range with the same r and the same s up to sign is unique. */
  lemma LowSIsUnique(a: Signature, b: Signature)
    requires InRange(a) && InRange(b) && R(a) == R(b)
    requires Value(S(a)) == Value(S(b)) || Value(S(a)) == N - Value(S(b))
    requires LowS(a) && LowS(b)
    ensures a == b
  {
    assert Value(S(a)) == Value(S(b));
    LexLessIsLess(S(a), S(b));
    assert a == R(a) + S(a) && b == R(b) + S(b);
  }

  /** Normalising a signature and its counterpart with n - s gives the same, and normalising twice changes nothing. */
  lemma NormalizedTwice(a: Signature, b: Signature, x: Option<Signature>, y: Option<Signature>, z: Option<Signature>)
    requires Normalized(a, x) && Normalized(b, y)
    requires InRange(a) && InRange(b) && R(a) == R(b)
    requires Value(S(a)) == Value(S(b)) || Value(S(a)) == N - Value(S(b))
    requires Normalized(x.value, z)
    ensures x == y && z == x
  {
    LowSIsUnique(x.value, y.value);
    LowSIsUnique(x.value, z.value);
  }
}
