/**
 The bit accumulator of `bound_protocol.cpp`: bytes are shifted into a 32-bit word that silently drops its high
 bits, and six-bit digits are shifted out. The word keeps wrapping, and the text is still exactly base64url.
 */
module Url64Accumulator {
  import opened Base64
  import opened Texts

  const WORD := 0x1_0000_0000

  type uint32 = x: int | 0 <= x < WORD

  /** A left shift of a 32-bit word drops the high bits. */
  function ShiftLeft(x: uint32, n: nat): uint32
    requires n in {2, 4, 8}
  {
    if n == 2 then x * 4 % WORD else if n == 4 then x * 16 % WORD else x * 256 % WORD
  }

  function ShiftRight(x: uint32, n: nat): uint32
    requires n in {0, 2, 4, 6}
  {
    if n == 0 then x else if n == 2 then x / 4 else if n == 4 then x / 16 else x / 64
  }

  /** The low `n` bits. */
  ghost function Low(x: nat, n: nat): nat
    requires n in {0, 2, 4, 6, 8, 10, 12}
  {
    if n == 0 then 0
    else if n == 2 then x % 4
    else if n == 4 then x % 16
    else if n == 6 then x % 64
    else if n == 8 then x % 256
    else if n == 10 then x % 1024
    else x % 4096
  }

  /** The digits still to come when `bits` bits of value `w` wait in front of `bytes`. */
  ghost function Rest(bits: nat, w: nat, bytes: seq<byte>): seq<sextet>
    requires bits in {0, 2, 4} && w < (if bits == 0 then 1 else if bits == 2 then 4 else 16)
    decreases |bytes|
  {
    if bytes == [] then
      if bits == 0 then [] else if bits == 2 then [w * 16] else [w * 4]
    else
      var v := w * 256 + bytes[0];
      Taken(bits + 8, v) + Rest(if bits == 4 then 0 else bits + 2, Left(bits + 8, v), bytes[1..])
  }

  /** The digits that `total` bits of value `v` yield, and the value that is left waiting. */
  ghost function Taken(total: nat, v: nat): seq<sextet>
    requires total in {8, 10, 12} && v < (if total == 8 then 256 else if total == 10 then 1024 else 4096)
  {
    if total == 8 then [v / 4] else if total == 10 then [v / 16] else [v / 64, v % 64]
  }

  ghost function Left(total: nat, v: nat): nat
    requires total in {8, 10, 12}
  {
    if total == 8 then v % 4 else if total == 10 then v % 16 else 0
  }

  lemma TakenFirst(a: byte)
    ensures Taken(8, a) == [a / 4] && Left(8, a) == a % 4
  {
  }

  lemma TakenSecond(a: byte, b: byte)
    ensures Taken(10, a % 4 * 256 + b) == [a % 4 * 16 + b / 16] && Left(10, a % 4 * 256 + b) == b % 16
  {
  }

  lemma TakenThird(b: byte, c: byte)
    ensures Taken(12, b % 16 * 256 + c) == [b % 16 * 4 + c / 64, c % 64] && Left(12, b % 16 * 256 + c) == 0
  {
  }

  lemma {:induction false} RestOfOne(a: byte, more: seq<byte>)
    ensures Rest(0, 0, [a] + more) == [a / 4] + Rest(2, a % 4, more)
  {
    TakenFirst(a);
    assert ([a] + more)[1..] == more;
  }

  lemma {:induction false} RestOfTwo(a: byte, b: byte, more: seq<byte>)
    ensures Rest(2, a % 4, [b] + more) == [a % 4 * 16 + b / 16] + Rest(4, b % 16, more)
  {
    TakenSecond(a, b);
    assert ([b] + more)[1..] == more;
  }

  lemma {:induction false} RestOfThree(b: byte, c: byte, more: seq<byte>)
    ensures Rest(4, b % 16, [c] + more) == [b % 16 * 4 + c / 64, c % 64] + Rest(0, 0, more)
  {
    TakenThird(b, c);
    assert ([c] + more)[1..] == more;
  }

  /** Taking the bits one byte at a time gives the digits of the reference. */
  lemma {:induction false} RestIsSextets(bytes: seq<byte>)
    ensures Rest(0, 0, bytes) == Sextets(bytes)
  {
    if |bytes| >= 1 {
      var a, more := bytes[0], bytes[1..];
      assert bytes == [a] + more;
      RestOfOne(a, more);
      if |bytes| == 2 {
        assert more == [bytes[1]] + [];
        RestOfTwo(a, bytes[1], []);
      } else if |bytes| >= 3 {
        var b, c, rest := bytes[1], bytes[2], bytes[3..];
        assert more == [b] + ([c] + rest);
        RestOfTwo(a, b, [c] + rest);
        RestOfThree(b, c, rest);
        RestIsSextets(rest);
      }
    }
  }

  /** What wraps away is a multiple of 2^24 of the old word. */
  lemma Wrap(x: uint32) returns (w: nat)
    ensures ShiftLeft(x, 8) == w * 256 && w % 16 == x % 16 && w < 0x100_0000
  {
    var q := x / 0x100_0000;
    w := x % 0x100_0000;
    assert x * 256 == q * WORD + w * 256;
  }

  lemma Join8(w: nat, b: byte)
    ensures (w * 256 + b) % 256 == b
  {
  }

  lemma Join10(w: nat, b: byte)
    ensures (w * 256 + b) % 1024 == w % 4 * 256 + b
  {
    assert w * 256 + b == w / 4 * 1024 + (w % 4 * 256 + b);
  }

  lemma Join12(w: nat, b: byte)
    ensures (w * 256 + b) % 4096 == w % 16 * 256 + b
  {
    assert w * 256 + b == w / 16 * 4096 + (w % 16 * 256 + b);
  }

  lemma RestOfFour(k: nat, r: nat)
    requires r < 16
    ensures (k * 16 + r) % 4 == r % 4
  {
    RestOf((k * 4 + r / 4), r % 4);
  }

  lemma RestOf(m: nat, r: nat)
    requires r < 4
    ensures (m * 4 + r) % 4 == r
  {
  }

  lemma Mod4Of16(w: nat)
    ensures w % 4 == w % 16 % 4
  {
    RestOfFour(w / 16, w % 16);
  }

  /** The waiting bits survive the wrap and end up above the new byte. */
  lemma ShiftIn(x: uint32, b: byte, bits: nat)
    requires bits in {0, 2, 4}
    ensures ShiftLeft(x, 8) + b < WORD
    ensures Low(ShiftLeft(x, 8) + b, bits + 8) == Low(x, bits) * 256 + b
  {
    var w := Wrap(x);
    if bits == 0 {
      Join8(w, b);
    } else if bits == 2 {
      Mod4Of16(w);
      Mod4Of16(x);
      Join10(w, b);
    } else {
      Join12(w, b);
    }
  }

  lemma Emit8(acc: nat)
    ensures acc / 4 % 64 == acc % 256 / 4 && acc % 4 == acc % 256 % 4
  {
    var q, r := acc / 256, acc % 256;
    assert acc == (q * 64 + r / 4) * 4 + r % 4;
    assert acc / 4 == q * 64 + r / 4;
  }

  lemma Emit10(acc: nat)
    ensures acc / 16 % 64 == acc % 1024 / 16 && acc % 16 == acc % 1024 % 16
  {
    var q, r := acc / 1024, acc % 1024;
    assert acc == (q * 64 + r / 16) * 16 + r % 16;
    assert acc / 16 == q * 64 + r / 16;
  }

  lemma Emit12(acc: nat)
    ensures acc / 64 % 64 == acc % 4096 / 64
  {
    var q, r := acc / 4096, acc % 4096;
    assert acc == (q * 64 + r / 64) * 64 + r % 64;
    assert acc / 64 == q * 64 + r / 64;
  }

  lemma Emit12Rest(acc: nat)
    ensures acc % 64 == acc % 4096 % 64
  {
  }

  /** The digit at the top of the low `bits` bits. */
  ghost function Top(low: nat, bits: nat): nat
    requires bits in {6, 8, 10, 12}
  {
    if bits == 6 then low else if bits == 8 then low / 4 else if bits == 10 then low / 16 else low / 64
  }

  lemma Emit(acc: uint32, bits: nat)
    requires bits in {6, 8, 10, 12}
    ensures ShiftRight(acc, bits - 6) % 64 == Top(Low(acc, bits), bits)
    ensures Low(acc, bits - 6) == Low(Low(acc, bits), bits - 6)
  {
    if bits == 8 {
      Emit8(acc);
    } else if bits == 10 {
      Emit10(acc);
    } else if bits == 12 {
      Emit12(acc);
      Emit12Rest(acc);
    }
  }

  lemma LastOfTwo(acc: nat)
    ensures acc * 16 % WORD % 64 == acc % 4 * 16
  {
  }

  lemma LastOfFour(acc: nat)
    ensures acc * 4 % WORD % 64 == acc % 16 * 4
  {
  }

  lemma LastDigit(acc: uint32, bits: nat)
    requires bits == 2 || bits == 4
    ensures ShiftLeft(acc, 6 - bits) % 64 == Low(acc, bits) * (if bits == 2 then 16 else 4)
  {
    LastOfTwo(acc);
    LastOfFour(acc);
  }

  lemma UrlTextAppend(a: seq<sextet>, b: seq<sextet>)
    ensures UrlText(a + b) == UrlText(a) + UrlText(b)
  {
  }

  /** The inner loop: takes every complete digit out of the low `total` bits. */
  method Drain(accumulator: uint32, total: nat, prefix: string) returns (bits: nat, out: string)
    requires total in {8, 10, 12}
    requires Low(accumulator, total) < (if total == 8 then 256 else if total == 10 then 1024 else 4096)
    ensures bits == (if total == 12 then 0 else total - 6)
    ensures out == prefix + UrlText(Taken(total, Low(accumulator, total)))
    ensures Low(accumulator, bits) == Left(total, Low(accumulator, total))
  {
    bits, out := total, prefix;
    Emit(accumulator, total);
    if total == 12 {
      Emit(accumulator, 6);
    }
    while bits >= 6
      invariant bits == total || bits == total - 6 || (bits == total - 12 && bits == 0)
      invariant bits == total ==> out == prefix
      invariant bits == total - 6 ==> out == prefix + [UrlChar(Top(Low(accumulator, total), total))]
      invariant bits == total - 12 ==> out == prefix + UrlText(Taken(total, Low(accumulator, total)))
    {
      bits := bits - 6;
      out := out + [UrlChar(ShiftRight(accumulator, bits) % 64)];
    }
  }

  lemma TakeOne(bits: nat, w: nat, bytes: seq<byte>)
    requires bits in {0, 2, 4} && w < (if bits == 0 then 1 else if bits == 2 then 4 else 16) && bytes != []
    ensures var v := w * 256 + bytes[0];
            UrlText(Rest(bits, w, bytes)) ==
            UrlText(Taken(bits + 8, v)) + UrlText(Rest(if bits == 4 then 0 else bits + 2, Left(bits + 8, v), bytes[1..]))
  {
    var v := w * 256 + bytes[0];
    UrlTextAppend(Taken(bits + 8, v), Rest(if bits == 4 then 0 else bits + 2, Left(bits + 8, v), bytes[1..]));
  }

  /** The body of the outer loop: shifts one byte in and takes the complete digits out. */
  method Absorb(accumulator: uint32, bits: nat, b: byte, prefix: string, ghost w: nat)
    returns (accumulator': uint32, bits': nat, out: string)
    requires bits in {0, 2, 4} && w == Low(accumulator, bits)
    requires w < (if bits == 0 then 1 else if bits == 2 then 4 else 16)
    ensures bits' == (if bits == 4 then 0 else bits + 2)
    ensures Low(accumulator', bits') == Left(bits + 8, w * 256 + b)
    ensures out == prefix + UrlText(Taken(bits + 8, w * 256 + b))
  {
    ShiftIn(accumulator, b, bits);
    accumulator' := ShiftLeft(accumulator, 8) + b;
    bits', out := Drain(accumulator', bits + 8, prefix);
  }

  /** The last incomplete digit, padded with zero bits. */
  method Flush(accumulator: uint32, bits: nat, prefix: string, ghost w: nat) returns (out: string)
    requires bits in {0, 2, 4} && w == Low(accumulator, bits)
    requires w < (if bits == 0 then 1 else if bits == 2 then 4 else 16)
    ensures out == prefix + UrlText(Rest(bits, w, []))
  {
    out := prefix;
    if bits != 0 {
      LastDigit(accumulator, bits);
      out := out + [UrlChar(ShiftLeft(accumulator, 6 - bits) % 64)];
    }
  }

  lemma {:induction false} TakeNext(out: string, bits: nat, w: nat, bytes: seq<byte>, i: nat)
    requires bits in {0, 2, 4} && w < (if bits == 0 then 1 else if bits == 2 then 4 else 16) && i < |bytes|
    ensures var v := w * 256 + bytes[i];
            out + UrlText(Rest(bits, w, bytes[i..])) ==
            out + UrlText(Taken(bits + 8, v))
            + UrlText(Rest(if bits == 4 then 0 else bits + 2, Left(bits + 8, v), bytes[i + 1..]))
  {
    TakeOne(bits, w, bytes[i..]);
    assert bytes[i..][1..] == bytes[i + 1..];
    var v, total := w * 256 + bytes[i], bits + 8;
    Assoc(out, UrlText(Taken(total, v)),
            UrlText(Rest(if bits == 4 then 0 else bits + 2, Left(total, v), bytes[i + 1..])));
  }

  /** Appends exactly the unpadded base64url text, whatever the wrapped high bits of the accumulator hold. */
  method AppendUrl64(prefix: string, bytes: seq<byte>) returns (out: string)
    ensures out == prefix + Url64(bytes)
  {
    var accumulator: uint32, bits: nat := 0, 0;
    ghost var w: nat := 0;
    out := prefix;
    RestIsSextets(bytes);
    assert bytes[0..] == bytes;
    for i := 0 to |bytes|
      invariant bits in {0, 2, 4} && w < (if bits == 0 then 1 else if bits == 2 then 4 else 16)
      invariant w == Low(accumulator, bits)
      invariant out + UrlText(Rest(bits, w, bytes[i..])) == prefix + Url64(bytes)
    {
      TakeNext(out, bits, w, bytes, i);
      ghost var left := Left(bits + 8, w * 256 + bytes[i]);
      accumulator, bits, out := Absorb(accumulator, bits, bytes[i], out, w);
      w := left;
    }
    out := Flush(accumulator, bits, out, w);
  }
}
