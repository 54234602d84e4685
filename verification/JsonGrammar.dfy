/**
 The JSON subset of device responses (`bound_json.cpp`; strings as in section 7 of RFC 8259): what each step of the
 parser reads from the front of a text. Objects are at most 4 deep, hold at most 32 fields, and repeat no key.
 */
module JsonGrammar {
  import opened Wrappers
  import opened Texts
  import opened SafeIntegers
  import opened Utf8

  datatype Value =
    | Object(fields: map<string, Value>)
    | Text(text: string)
    | Boolean(boolean: bool)
    | Number(number: nat)

  /** Something read, and the text after it. */
  datatype Parsed<+T> = Parsed(value: T, rest: string)

  predicate IsSpace(c: char) {
    c in {' ', '\t', '\r', '\n'}
  }

  function SkipSpace(s: string): (rest: string)
    ensures |rest| <= |s| && (rest == "" || !IsSpace(rest[0]))
  {
    if s != "" && IsSpace(s[0]) then SkipSpace(s[1..]) else s
  }

  function Take(s: string, c: char): (rest: Option<string>)
    ensures rest.Some? ==> |rest.value| < |s|
  {
    var t := SkipSpace(s);
    if t == "" || t[0] != c then None else Some(t[1..])
  }

  // ----- Strings -----

  /** The value of a hexadecimal digit; 16 for anything else. */
  function HexValue(c: char): (d: nat)
    ensures d <= 16
  {
    if '0' <= c <= '9' then c as int - '0' as int
    else if 'a' <= c <= 'f' then c as int - 'a' as int + 10
    else if 'A' <= c <= 'F' then c as int - 'A' as int + 10
    else 16
  }

  /** The next `count` hexadecimal digits, continuing the number `high`. */
  function Hex(s: string, count: nat, high: nat): (r: Option<Parsed<nat>>)
    ensures r.Some? ==> |r.value.rest| + count == |s|
    decreases count
  {
    if count == 0 then Some(Parsed(high, s))
    else if s == "" || HexValue(s[0]) == 16 then None
    else Hex(s[1..], count - 1, high * 16 + HexValue(s[0]))
  }

  lemma {:induction false} HexBound(s: string, count: nat, high: nat, bound: nat)
    requires high < bound && Hex(s, count, high).Some?
    ensures Hex(s, count, high).value.value < bound * Power16(count)
    decreases count
  {
    if count > 0 {
      HexBound(s[1..], count - 1, high * 16 + HexValue(s[0]), bound * 16);
    }
  }

  /** What follows `\u`: four digits, or a surrogate pair of two escapes. */
  function Unicode(s: string): (r: Option<Parsed<Scalar>>)
    ensures r.Some? ==> |r.value.rest| < |s|
  {
    var high := Hex(s, 4, 0);
    if high.None? then None
    else if 0xD800 <= high.value.value <= 0xDBFF then
      var t := high.value.rest;
      if |t| < 6 || t[0] != '\\' || t[1] != 'u' then None
      else
        var low := Hex(t[2..], 4, 0);
        if low.None? || low.value.value < 0xDC00 || low.value.value > 0xDFFF then None
        else
          var point: Scalar := 0x10000 + (high.value.value - 0xD800) * 1024 + low.value.value - 0xDC00;
          Some(Parsed(point, low.value.rest))
    else if 0xDC00 <= high.value.value <= 0xDFFF then None
    else
      HexBound(s, 4, 0, 1);
      var point: Scalar := high.value.value;
      Some(Parsed(point, high.value.rest))
  }

  /** What follows a backslash. */
  function Escape(s: string): (r: Option<Parsed<string>>)
    ensures r.Some? ==> |r.value.rest| < |s|
  {
    if s == "" then None
    else if s[0] in {'"', '\\', '/'} then Some(Parsed([s[0]], s[1..]))
    else if s[0] == 'b' then Some(Parsed([8 as char], s[1..]))
    else if s[0] == 'f' then Some(Parsed([12 as char], s[1..]))
    else if s[0] == 'n' then Some(Parsed("\n", s[1..]))
    else if s[0] == 'r' then Some(Parsed("\r", s[1..]))
    else if s[0] == 't' then Some(Parsed("\t", s[1..]))
    else if s[0] == 'u' then
      var point := Unicode(s[1..]);
      if point.None? then None else Some(Parsed(Encode(point.value.value), point.value.rest))
    else None
  }

  /** `prefix` put before whatever was read. */
  function After(prefix: string, r: Option<Parsed<string>>): Option<Parsed<string>> {
    if r.None? then None else Some(Parsed(prefix + r.value.value, r.value.rest))
  }

  lemma AfterTwice(a: string, b: string, r: Option<Parsed<string>>)
    ensures After(a, After(b, r)) == After(a + b, r)
  {
    if r.Some? {
      assert a + (b + r.value.value) == a + b + r.value.value;
    }
  }

  lemma AfterNothing(r: Option<Parsed<string>>)
    ensures After("", r) == r
  {
    if r.Some? {
      assert "" + r.value.value == r.value.value;
    }
  }

  /** What follows an opening quote, up to the closing one. */
  function StringBody(s: string): (r: Option<Parsed<string>>)
    ensures r.Some? ==> |r.value.rest| < |s|
    decreases |s|
  {
    if s == "" || s[0] as int < 32 then None
    else if s[0] == '"' then Some(Parsed("", s[1..]))
    else if s[0] != '\\' then After([s[0]], StringBody(s[1..]))
    else
      var escaped := Escape(s[1..]);
      if escaped.None? then None else After(escaped.value.value, StringBody(escaped.value.rest))
  }

  function StringLiteral(s: string): (r: Option<Parsed<string>>)
    ensures r.Some? ==> |r.value.rest| < |s|
  {
    var open := Take(s, '"');
    if open.None? then None else StringBody(open.value)
  }

  // ----- Values -----

  function Digits(s: string): (n: nat)
    ensures n <= |s|
  {
    if s != "" && IsDigit(s[0]) then 1 + Digits(s[1..]) else 0
  }

  const MAX_DEPTH := 4
  const MAX_FIELDS := 32
  const MAX_KEY := 1024

  function ParseValue(s: string, depth: nat): (r: Option<Parsed<Value>>)
    ensures r.Some? ==> |r.value.rest| < |s|
    decreases |s|, 1
  {
    var t := SkipSpace(s);
    if t == "" then None
    else if t[0] == '{' then ParseObject(t, depth)
    else if t[0] == '"' then
      var text := StringLiteral(t);
      if text.None? then None else Some(Parsed(Text(text.value.value), text.value.rest))
    else if "true" <= t then Some(Parsed(Boolean(true), t[4..]))
    else if "false" <= t then Some(Parsed(Boolean(false), t[5..]))
    else
      var n := Digits(t);
      var number := SafeInteger(t[..n]);
      if number.None? then None else Some(Parsed(Number(number.value), t[n..]))
  }

  function ParseObject(s: string, depth: nat): (r: Option<Parsed<Value>>)
    ensures r.Some? ==> |r.value.rest| < |s| && r.value.value.Object?
    decreases |s|, 0
  {
    var open := if depth > MAX_DEPTH then None else Take(s, '{');
    if open.None? then None
    else
      var empty := Take(open.value, '}');
      if empty.Some? then Some(Parsed(Object(map[]), empty.value)) else ParseFields(open.value, depth, map[])
  }

  datatype Field = Field(key: string, value: Value)

  function ParseField(s: string, depth: nat): (r: Option<Parsed<Field>>)
    ensures r.Some? ==> |r.value.rest| < |s|
    decreases |s|, 2
  {
    var key := StringLiteral(s);
    if key.None? || |key.value.value| > MAX_KEY then None
    else
      var colon := Take(key.value.rest, ':');
      if colon.None? then None
      else
        var value := ParseValue(colon.value, depth + 1);
        if value.None? then None else Some(Parsed(Field(key.value.value, value.value.value), value.value.rest))
  }

  /** One field, and after a comma more of them, added to those already read. */
  function ParseFields(s: string, depth: nat, fields: map<string, Value>): (r: Option<Parsed<Value>>)
    ensures r.Some? ==> |r.value.rest| < |s| && r.value.value.Object?
    decreases |s|, 3
  {
    var field := ParseField(s, depth);
    if field.None? || field.value.value.key in fields then None
    else
      var added := fields[field.value.value.key := field.value.value.value];
      if |added| > MAX_FIELDS then None
      else
        var close := Take(field.value.rest, '}');
        if close.Some? then Some(Parsed(Object(added), close.value))
        else
          var comma := Take(field.value.rest, ',');
          if comma.None? then None else ParseFields(comma.value, depth, added)
  }

  const MAX_TEXT := 16384

  /** The object that a whole text spells, if it is well-formed UTF-8 and nothing else follows. */
  function Parse(source: string): (r: Option<Value>)
    ensures r.Some? ==> r.value.Object?
  {
    if source == "" || |source| > MAX_TEXT || !IsUtf8(source) then None
    else
      var parsed := ParseObject(source, 1);
      if parsed.None? || SkipSpace(parsed.value.rest) != "" then None else Some(parsed.value.value)
  }
}
