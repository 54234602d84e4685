/**
 UTF-8 (section 3 and 4 of RFC 3629) as `utf8_text` accepts it (`bound_encoding.cpp`). A character below 256 stands
 for a byte, as in the source's strings; bit masks are written as division and remainder.
 */
module Utf8 {
  import opened Wrappers
  import opened Texts

  /** Unicode scalar values: code points without the surrogates. */
  type Scalar = p: nat | p < 0xD800 || 0xE000 <= p <= 0x10FFFF

  predicate IsScalar(p: nat) {
    p <= 0x10FFFF && !(0xD800 <= p <= 0xDFFF)
  }

  /** Without the six low bits. */
  function Shift(p: nat): (q: nat)
    ensures q * 64 <= p == q * 64 + p % 64 < q * 64 + 64
  {
    p / 64
  }

  function Tail(p: nat): char {
    (0x80 + p % 64) as char
  }

  /** The bytes of one scalar value. */
  function Encode(p: Scalar): (e: string)
    ensures 1 <= |e| <= 4
  {
    if p < 0x80 then [p as char]
    else if p < 0x800 then [(0xC0 + Shift(p)) as char, Tail(p)]
    else if p < 0x10000 then [(0xE0 + Shift(Shift(p))) as char, Tail(Shift(p)), Tail(p)]
    else [(0xF0 + Shift(Shift(Shift(p)))) as char, Tail(Shift(Shift(p))), Tail(Shift(p)), Tail(p)]
  }

  /** The table of section 3 of RFC 3629: the ranges of code points, and where their bits go. */
  lemma EncodedBits(p: Scalar)
    ensures var e := Encode(p);
            var n := |e|;
            && (p <= 0x7F <==> n == 1) && (0x80 <= p <= 0x7FF <==> n == 2) && (0x800 <= p <= 0xFFFF <==> n == 3)
            && (forall i | 0 < i < n :: 0x80 <= e[i] as int <= 0xBF)
            && (n == 1 ==> p == e[0] as int)
            && (n == 2 ==> p == (e[0] as int - 0xC0) * 0x40 + (e[1] as int - 0x80))
            && (n == 3 ==> p == (e[0] as int - 0xE0) * 0x1000 + (e[1] as int - 0x80) * 0x40 + (e[2] as int - 0x80))
            && (n == 4 ==> p == (e[0] as int - 0xF0) * 0x4_0000 + (e[1] as int - 0x80) * 0x1000
                                + (e[2] as int - 0x80) * 0x40 + (e[3] as int - 0x80))
  {
  }

  function EncodeAll(points: seq<Scalar>): string {
    if points == [] then "" else Encode(points[0]) + EncodeAll(points[1..])
  }

  /** A text that encodes some sequence of scalar values. */
  ghost predicate WellFormed(s: string) {
    exists points: seq<Scalar> :: EncodeAll(points) == s
  }

  // ----- The checker -----

  predicate IsTail(c: char) {
    0x80 <= c as int < 0xC0
  }

  /** The continuation bytes that a lead byte announces, its own bits and the least value that needs them. */
  datatype Lead = Lead(count: nat, point: nat, minimum: nat)

  function LeadOf(c: char): (lead: Option<Lead>)
    ensures lead.Some? ==> lead.value.count <= 3
  {
    var first := c as int;
    if first < 0x80 then Some(Lead(0, first, 0))
    else if 0xC2 <= first <= 0xDF then Some(Lead(1, first - 0xC0, 0x80))
    else if 0xE0 <= first <= 0xEF then Some(Lead(2, first - 0xE0, 0x800))
    else if 0xF0 <= first <= 0xF4 then Some(Lead(3, first - 0xF0, 0x10000))
    else None
  }

  /** The value after `count` continuation bytes. */
  function Tails(s: string, count: nat, point: nat): Option<nat> {
    if count == 0 then Some(point)
    else if s == "" || !IsTail(s[0]) then None
    else Tails(s[1..], count - 1, point * 64 + (s[0] as int - 0x80))
  }

  datatype Decoded = Decoded(point: Scalar, size: nat)

  /** The first scalar value of a text. */
  function First(s: string): (d: Option<Decoded>)
    requires s != ""
    ensures d.Some? ==> 1 <= d.value.size <= 4
  {
    var lead := LeadOf(s[0]);
    if lead.None? then None
    else
      var point := Tails(s[1..], lead.value.count, lead.value.point);
      if point.None? || point.value < lead.value.minimum || !IsScalar(point.value) then None
      else Some(Decoded(point.value, lead.value.count + 1))
  }

  lemma {:induction false} TailsFit(s: string, count: nat, point: nat)
    requires Tails(s, count, point).Some?
    ensures count <= |s| && forall i | 0 <= i < count :: IsTail(s[i])
  {
    if count > 0 {
      TailsFit(s[1..], count - 1, point * 64 + (s[0] as int - 0x80));
      assert forall i | 0 < i < count :: s[i] == s[1..][i - 1];
    }
  }

  predicate IsUtf8(s: string) {
    s == "" || (First(s).Some? && First(s).value.size <= |s| && IsUtf8(s[First(s).value.size..]))
  }

  /** Accepts exactly the nonempty well-formed texts of at most `maximum` bytes. */
  method Utf8Text(value: string, maximum: nat) returns (ok: bool)
    ensures ok <==> value != "" && |value| <= maximum && WellFormed(value)
  {
    Utf8IsWellFormed(value);
    if value == "" || |value| > maximum {
      return false;
    }
    ok := ScanText(value);
  }

  method ScanText(value: string) returns (ok: bool)
    ensures ok == IsUtf8(value)
  {
    var i := 0;
    while i < |value|
      invariant i <= |value|
      invariant IsUtf8(value) == IsUtf8(value[i..])
    {
      var lead := LeadOf(value[i]);
      if lead.None? {
        return false;
      }
      var count, point := lead.value.count, lead.value.point;
      ghost var start := i;
      i := i + 1;
      assert value[start..][1..] == value[i..];
      if Tails(value[i..], count, point).Some? {
        TailsFit(value[i..], count, point);
      }
      if |value| - i < count {
        return false;
      }
      var whole;
      i, whole, point := ScanTails(value, i, count, point);
      if !whole || point < lead.value.minimum || !IsScalar(point) {
        return false;
      }
      assert value[start..][lead.value.count + 1..] == value[i..];
    }
    return true;
  }

  method ScanTails(value: string, from: nat, count: nat, bits: nat) returns (i: nat, whole: bool, point: nat)
    requires from + count <= |value|
    ensures whole <==> Tails(value[from..], count, bits).Some?
    ensures whole ==> i == from + count && Tails(value[from..], count, bits) == Some(point)
  {
    i, point := from, bits;
    var left := count;
    while left > 0
      invariant i + left == from + count
      invariant Tails(value[from..], count, bits) == Tails(value[i..], left, point)
    {
      var next := value[i];
      if !IsTail(next) {
        return i, false, point;
      }
      assert value[i..][1..] == value[i + 1..];
      point := point * 64 + (next as int - 0x80);
      i, left := i + 1, left - 1;
    }
    whole := true;
  }

  // ----- The checker accepts exactly the encodings -----

  lemma Join(q: nat, r: nat)
    requires r < 64
    ensures Shift(q * 64 + r) == q && (q * 64 + r) % 64 == r
  {
  }

  lemma {:induction false} Tails3(s: string, count: nat, point: nat)
    requires count <= 3
    ensures Tails(s, count, point) ==
            if |s| < count || (exists i | 0 <= i < count :: !IsTail(s[i])) then None
            else if count == 0 then Some(point)
            else if count == 1 then Some(point * 64 + Bits(s[0]))
            else if count == 2 then Some((point * 64 + Bits(s[0])) * 64 + Bits(s[1]))
            else Some(((point * 64 + Bits(s[0])) * 64 + Bits(s[1])) * 64 + Bits(s[2]))
  {
    if count >= 1 && s != "" && IsTail(s[0]) {
      Tails3(s[1..], count - 1, point * 64 + Bits(s[0]));
      assert forall i | 0 < i < |s| :: s[i] == s[1..][i - 1];
    }
  }

  function Bits(c: char): int {
    c as int - 0x80
  }

  lemma TailBits(p: nat)
    ensures IsTail(Tail(p)) && Shift(p) * 64 + Bits(Tail(p)) == p
  {
  }

  lemma FirstOfEncode(p: Scalar, t: string)
    ensures First(Encode(p) + t) == Some(Decoded(p, |Encode(p)|))
  {
    assert (Encode(p) + t)[0] == Encode(p)[0];
    LeadOfEncode(p);
    TailsOfEncode(p, t, LeadOf(Encode(p)[0]).value.point);
  }

  lemma TailsOfEncode(p: Scalar, t: string, point: nat)
    requires point == if p < 0x80 then p else if p < 0x800 then Shift(p)
                      else if p < 0x10000 then Shift(Shift(p)) else Shift(Shift(Shift(p)))
    ensures Tails((Encode(p) + t)[1..], |Encode(p)| - 1, point) == Some(p)
  {
    var e := Encode(p);
    var tails := (e + t)[1..];
    assert forall i | 0 <= i < |e| - 1 :: tails[i] == e[i + 1];
    TailBits(p);
    TailBits(Shift(p));
    TailBits(Shift(Shift(p)));
    Tails3(tails, |e| - 1, point);
  }

  lemma LeadOfEncode(p: Scalar)
    ensures var lead := LeadOf(Encode(p)[0]);
            && lead.Some? && lead.value.count == |Encode(p)| - 1 && lead.value.minimum <= p
            && lead.value.point == if p < 0x80 then p else if p < 0x800 then Shift(p)
                                   else if p < 0x10000 then Shift(Shift(p)) else Shift(Shift(Shift(p)))
  {
  }

  lemma EncodesTwo(a: char, b: char, p: Scalar)
    requires 0xC2 <= a as int <= 0xDF && IsTail(b) && p == (a as int - 0xC0) * 64 + Bits(b)
    ensures Encode(p) == [a, b]
  {
    Join(a as int - 0xC0, Bits(b));
  }

  lemma EncodesThree(a: char, b: char, c: char, p: Scalar)
    requires 0xE0 <= a as int <= 0xEF && IsTail(b) && IsTail(c) && p >= 0x800
    requires p == ((a as int - 0xE0) * 64 + Bits(b)) * 64 + Bits(c)
    ensures Encode(p) == [a, b, c]
  {
    Join(a as int - 0xE0, Bits(b));
    Join((a as int - 0xE0) * 64 + Bits(b), Bits(c));
  }

  lemma EncodesFour(a: char, b: char, c: char, d: char, p: Scalar)
    requires 0xF0 <= a as int <= 0xF4 && IsTail(b) && IsTail(c) && IsTail(d) && p >= 0x10000
    requires p == (((a as int - 0xF0) * 64 + Bits(b)) * 64 + Bits(c)) * 64 + Bits(d)
    ensures Encode(p) == [a, b, c, d]
  {
    Join(a as int - 0xF0, Bits(b));
    Join((a as int - 0xF0) * 64 + Bits(b), Bits(c));
    Join(((a as int - 0xF0) * 64 + Bits(b)) * 64 + Bits(c), Bits(d));
  }

  lemma EncodeOfFirst(s: string)
    requires s != "" && First(s).Some?
    ensures var d := First(s).value; d.size <= |s| && s[..d.size] == Encode(d.point)
  {
    var d := First(s).value;
    var lead := LeadOf(s[0]).value;
    Tails3(s[1..], lead.count, lead.point);
    TailsFit(s[1..], lead.count, lead.point);
    assert forall i | 0 <= i < |s| - 1 :: s[1..][i] == s[i + 1];
    if lead.count == 1 {
      EncodesTwo(s[0], s[1], d.point);
    } else if lead.count == 2 {
      EncodesThree(s[0], s[1], s[2], d.point);
    } else if lead.count == 3 {
      EncodesFour(s[0], s[1], s[2], s[3], d.point);
    }
  }

  lemma {:induction false} EncodingIsUtf8(points: seq<Scalar>)
    ensures IsUtf8(EncodeAll(points))
  {
    if points != [] {
      EncodingIsUtf8(points[1..]);
      Prepend(points[0], EncodeAll(points[1..]));
    }
  }

  lemma {:induction false} Utf8IsEncoding(s: string) returns (points: seq<Scalar>)
    requires IsUtf8(s)
    ensures EncodeAll(points) == s
  {
    if s == "" {
      points := [];
    } else {
      var d := First(s).value;
      EncodeOfFirst(s);
      var rest := Utf8IsEncoding(s[d.size..]);
      points := [d.point] + rest;
      EncodeCons(d.point, rest);
      assert s == s[..d.size] + s[d.size..];
    }
  }

  lemma {:induction false} EncodeCons(p: Scalar, rest: seq<Scalar>)
    ensures EncodeAll([p] + rest) == Encode(p) + EncodeAll(rest)
  {
    assert ([p] + rest)[1..] == rest;
  }

  lemma {:induction false} Utf8IsWellFormed(s: string)
    ensures IsUtf8(s) <==> WellFormed(s)
  {
    if IsUtf8(s) {
      var points := Utf8IsEncoding(s);
    }
    if WellFormed(s) {
      var points: seq<Scalar> :| EncodeAll(points) == s;
      EncodingIsUtf8(points);
    }
  }

  // ----- Where a text may be cut -----

  lemma {:induction false} Utf8Concat(a: string, b: string)
    requires IsUtf8(a) && IsUtf8(b)
    ensures IsUtf8(a + b)
    decreases |a|
  {
    if a == "" {
      assert a + b == b;
    } else {
      var d := First(a).value;
      EncodeOfFirst(a);
      Utf8Concat(a[d.size..], b);
      PrependPart(d.point, a[d.size..], b);
      assert a == a[..d.size] + a[d.size..];
    }
  }

  lemma {:induction false} PrependPart(p: Scalar, rest: string, b: string)
    requires IsUtf8(rest + b)
    ensures IsUtf8(Encode(p) + rest + b)
  {
    Prepend(p, rest + b);
    Assoc(Encode(p), rest, b);
  }

  lemma {:induction false} Prepend(p: Scalar, t: string)
    requires IsUtf8(t)
    ensures IsUtf8(Encode(p) + t)
  {
    FirstOfEncode(p, t);
    assert (Encode(p) + t)[|Encode(p)|..] == t;
  }

  lemma AsciiIsUtf8(c: char)
    requires c as int < 0x80
    ensures IsUtf8([c])
  {
    assert First([c]) == Some(Decoded(c as int, 1));
    assert [c][1..] == "";
  }

  lemma {:induction false} AsciiText(s: string)
    requires forall i | 0 <= i < |s| :: s[i] as int < 0x80
    ensures IsUtf8(s)
  {
    if s != "" {
      AsciiText(s[1..]);
      AsciiIsUtf8(s[0]);
      Utf8Concat([s[0]], s[1..]);
      assert s == [s[0]] + s[1..];
    }
  }

  lemma EncodeIsUtf8(p: Scalar)
    ensures IsUtf8(Encode(p))
  {
    Prepend(p, "");
    assert Encode(p) + "" == Encode(p);
  }

  /** A text may be cut after an ASCII byte; any other byte begins a character of bytes above ASCII. */
  lemma {:induction false} CutFirst(s: string)
    requires IsUtf8(s) && s != ""
    ensures s[0] as int < 0x80 ==> IsUtf8(s[1..])
    ensures s[0] as int >= 0x80 ==>
              var n := First(s).value.size;
              && 2 <= n <= |s| && IsUtf8(s[..n]) && IsUtf8(s[n..])
              && forall i | 0 <= i < n :: s[i] as int >= 0x80
  {
    EncodeOfFirst(s);
    EncodeIsUtf8(First(s).value.point);
    var lead := LeadOf(s[0]).value;
    TailsFit(s[1..], lead.count, lead.point);
    assert forall i | 0 < i <= lead.count :: s[i] == s[1..][i - 1];
  }
}
