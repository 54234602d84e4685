/** Every key and every text that the JSON parser returns is well-formed UTF-8. */
module JsonText {
  import opened Wrappers
  import opened Utf8
  import opened JsonGrammar

  predicate AllUtf8(v: Value) {
    match v
    case Object(fields) => forall key | key in fields :: IsUtf8(key) && AllUtf8(fields[key])
    case Text(text) => IsUtf8(text)
    case Boolean(_) => true
    case Number(_) => true
  }

  /** Characters below 0x80 may be dropped from the front of a text. */
  lemma {:induction false} DropAscii(s: string, n: nat)
    requires IsUtf8(s) && n <= |s| && forall i | 0 <= i < n :: s[i] as int < 0x80
    ensures IsUtf8(s[n..])
  {
    if n == 0 {
      assert s[0..] == s;
    } else {
      CutFirst(s);
      DropAscii(s[1..], n - 1);
      assert s[1..][n - 1..] == s[n..];
    }
  }

  lemma {:induction false} SkipSpaceUtf8(s: string)
    requires IsUtf8(s)
    ensures IsUtf8(SkipSpace(s))
  {
    if s != "" && IsSpace(s[0]) {
      CutFirst(s);
      SkipSpaceUtf8(s[1..]);
    }
  }

  lemma {:induction false} TakeUtf8(s: string, c: char)
    requires IsUtf8(s) && c as int < 0x80 && Take(s, c).Some?
    ensures IsUtf8(Take(s, c).value)
  {
    SkipSpaceUtf8(s);
    CutFirst(SkipSpace(s));
  }

  lemma {:induction false} HexUtf8(s: string, count: nat, high: nat)
    requires IsUtf8(s) && Hex(s, count, high).Some?
    ensures IsUtf8(Hex(s, count, high).value.rest)
    decreases count
  {
    if count > 0 {
      CutFirst(s);
      HexUtf8(s[1..], count - 1, high * 16 + HexValue(s[0]));
    }
  }

  lemma {:induction false} UnicodeUtf8(s: string)
    requires IsUtf8(s) && Unicode(s).Some?
    ensures IsUtf8(Unicode(s).value.rest)
  {
    HexUtf8(s, 4, 0);
    var high := Hex(s, 4, 0).value;
    if 0xD800 <= high.value <= 0xDBFF {
      DropAscii(high.rest, 2);
      HexUtf8(high.rest[2..], 4, 0);
    }
  }

  lemma ShortEscape(s: string) returns (c: char)
    requires Escape(s).Some? && s[0] != 'u'
    ensures c as int < 0x80 && Escape(s) == Some(Parsed([c], s[1..]))
  {
    c := Escape(s).value.value[0];
  }

  lemma LongEscape(s: string) returns (point: Scalar)
    requires Escape(s).Some? && s[0] == 'u'
    ensures Unicode(s[1..]).Some? && Escape(s) == Some(Parsed(Encode(point), Unicode(s[1..]).value.rest))
  {
    point := Unicode(s[1..]).value.value;
  }

  lemma {:induction false} EscapeUtf8(s: string)
    requires IsUtf8(s) && Escape(s).Some?
    ensures IsUtf8(Escape(s).value.value) && IsUtf8(Escape(s).value.rest)
  {
    CutFirst(s);
    if s[0] == 'u' {
      var point := LongEscape(s);
      UnicodeUtf8(s[1..]);
      EncodeIsUtf8(point);
    } else {
      var c := ShortEscape(s);
      AsciiIsUtf8(c);
    }
  }

  /** Bytes above ASCII pass through a string unchanged. */
  lemma {:induction false} HighBytesPass(s: string, n: nat)
    requires n <= |s| && forall i | 0 <= i < n :: s[i] as int >= 0x80
    ensures StringBody(s) == After(s[..n], StringBody(s[n..]))
  {
    if n == 0 {
      assert s[0..] == s && s[..0] == "";
      AfterNothing(StringBody(s));
    } else {
      HighBytesPass(s[1..], n - 1);
      assert s[1..][n - 1..] == s[n..] && s[..n] == [s[0]] + s[1..][..n - 1];
      AfterTwice([s[0]], s[1..][..n - 1], StringBody(s[n..]));
    }
  }

  /** Strings cut at quotes and escapes are cut between characters. */
  lemma {:induction false} StringBodyUtf8(s: string)
    requires IsUtf8(s) && StringBody(s).Some?
    ensures IsUtf8(StringBody(s).value.value) && IsUtf8(StringBody(s).value.rest)
    decreases |s|
  {
    CutFirst(s);
    if s[0] == '"' {
    } else if s[0] == '\\' {
      EscapeUtf8(s[1..]);
      var escaped := Escape(s[1..]).value;
      StringBodyUtf8(escaped.rest);
      Utf8Concat(escaped.value, StringBody(escaped.rest).value.value);
    } else if s[0] as int < 0x80 {
      StringBodyUtf8(s[1..]);
      AsciiIsUtf8(s[0]);
      Utf8Concat([s[0]], StringBody(s[1..]).value.value);
    } else {
      var n := First(s).value.size;
      HighBytesPass(s, n);
      StringBodyUtf8(s[n..]);
      Utf8Concat(s[..n], StringBody(s[n..]).value.value);
    }
  }

  lemma {:induction false} StringUtf8(s: string)
    requires IsUtf8(s) && StringLiteral(s).Some?
    ensures IsUtf8(StringLiteral(s).value.value) && IsUtf8(StringLiteral(s).value.rest)
  {
    TakeUtf8(s, '"');
    StringBodyUtf8(Take(s, '"').value);
  }

  lemma {:induction false} DigitsUtf8(s: string)
    requires IsUtf8(s)
    ensures IsUtf8(s[Digits(s)..])
    decreases |s|
  {
    if s != "" && s[0] as int < 0x80 && Digits(s) > 0 {
      CutFirst(s);
      DigitsUtf8(s[1..]);
      assert s[1..][Digits(s[1..])..] == s[Digits(s)..];
    } else {
      assert s[0..] == s;
    }
  }

  lemma {:induction false} ValueUtf8(s: string, depth: nat)
    requires IsUtf8(s) && ParseValue(s, depth).Some?
    ensures AllUtf8(ParseValue(s, depth).value.value) && IsUtf8(ParseValue(s, depth).value.rest)
    decreases |s|, 1
  {
    var t := SkipSpace(s);
    SkipSpaceUtf8(s);
    if t[0] == '{' {
      ObjectUtf8(t, depth);
    } else if t[0] == '"' {
      StringUtf8(t);
    } else if "true" <= t {
      DropAscii(t, 4);
    } else if "false" <= t {
      DropAscii(t, 5);
    } else {
      DigitsUtf8(t);
    }
  }

  lemma {:induction false} ObjectUtf8(s: string, depth: nat)
    requires IsUtf8(s) && ParseObject(s, depth).Some?
    ensures AllUtf8(ParseObject(s, depth).value.value) && IsUtf8(ParseObject(s, depth).value.rest)
    decreases |s|, 0
  {
    TakeUtf8(s, '{');
    var inside := Take(s, '{').value;
    if Take(inside, '}').Some? {
      TakeUtf8(inside, '}');
    } else {
      FieldsUtf8(inside, depth, map[]);
    }
  }

  lemma {:induction false} FieldUtf8(s: string, depth: nat)
    requires IsUtf8(s) && ParseField(s, depth).Some?
    ensures var f := ParseField(s, depth).value;
            IsUtf8(f.value.key) && AllUtf8(f.value.value) && IsUtf8(f.rest)
    decreases |s|, 2
  {
    StringUtf8(s);
    var key := StringLiteral(s).value;
    TakeUtf8(key.rest, ':');
    ValueUtf8(Take(key.rest, ':').value, depth + 1);
  }

  lemma {:induction false} FieldsUtf8(s: string, depth: nat, fields: map<string, Value>)
    requires IsUtf8(s) && ParseFields(s, depth, fields).Some?
    requires AllUtf8(Object(fields))
    ensures AllUtf8(ParseFields(s, depth, fields).value.value) && IsUtf8(ParseFields(s, depth, fields).value.rest)
    decreases |s|, 3
  {
    FieldUtf8(s, depth);
    var field := ParseField(s, depth).value;
    var added := fields[field.value.key := field.value.value];
    if Take(field.rest, '}').Some? {
      TakeUtf8(field.rest, '}');
    } else {
      TakeUtf8(field.rest, ',');
      FieldsUtf8(Take(field.rest, ',').value, depth, added);
    }
  }

  /** The parser never returns anything that is not UTF-8, whatever escapes and raw bytes the source mixes. */
  lemma ParsedIsUtf8(source: string)
    requires Parse(source).Some?
    ensures AllUtf8(Parse(source).value)
  {
    ObjectUtf8(source, 1);
  }
}
