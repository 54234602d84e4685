/**
 The recursive-descent parser of `bound_json.cpp`: an offset into the source moves on while output strings and field
 maps are built up. Every method reads exactly what `JsonGrammar` says.
 */
module JsonParser {
  import opened Wrappers
  import opened SafeIntegers
  import opened Utf8
  import opened JsonGrammar

  lemma {:induction false} SkipSpaceTwice(s: string)
    ensures SkipSpace(SkipSpace(s)) == SkipSpace(s)
  {
    var t := SkipSpace(s);
    assert SkipSpace(t) == t;
  }

  class Parser {
    const source: string
    var offset: nat

    ghost predicate Valid()
      reads this
    {
      offset <= |source|
    }

    ghost function Rest(): string
      reads this
      requires Valid()
    {
      source[offset..]
    }

    constructor (source: string)
      ensures Valid() && this.source == source && Rest() == source
    {
      this.source, offset := source, 0;
    }

    method Whitespace()
      requires Valid()
      modifies this`offset
      ensures Valid() && offset >= old(offset) && Rest() == SkipSpace(old(Rest()))
    {
      while offset < |source| && (source[offset] == ' ' || source[offset] == '\t' || source[offset] == '\r'
                                  || source[offset] == '\n')
        invariant Valid() && offset >= old(offset)
        invariant SkipSpace(old(Rest())) == SkipSpace(Rest())
      {
        assert Rest()[1..] == source[offset + 1..];
        offset := offset + 1;
      }
    }

    method TakeChar(value: char) returns (ok: bool)
      requires Valid()
      modifies this`offset
      ensures Valid() && offset >= old(offset)
      ensures ok <==> Take(old(Rest()), value).Some?
      ensures Rest() == if ok then Take(old(Rest()), value).value else SkipSpace(old(Rest()))
      ensures ok ==> offset > old(offset)
    {
      Whitespace();
      if offset == |source| || source[offset] != value {
        return false;
      }
      assert Rest()[1..] == source[offset + 1..];
      offset := offset + 1;
      return true;
    }

    method ReadHex() returns (ok: bool, out: nat)
      requires Valid()
      modifies this`offset
      ensures Valid() && offset >= old(offset)
      ensures ok <==> Hex(old(Rest()), 4, 0).Some?
      ensures ok ==> Hex(old(Rest()), 4, 0) == Some(Parsed(out, Rest()))
    {
      out := 0;
      if |source| - offset < 4 {
        return false, 0;
      }
      for i := 0 to 4
        invariant Valid() && offset == old(offset) + i
        invariant Hex(old(Rest()), 4, 0) == Hex(Rest(), 4 - i, out)
      {
        var value := HexValue(source[offset]);
        assert Rest()[1..] == source[offset + 1..];
        offset := offset + 1;
        if value == 16 {
          return false, out;
        }
        out := out * 16 + value;
      }
      return true, out;
    }

    /** Four digits, or a surrogate pair, appended as UTF-8. */
    method ReadUnicode(out: string) returns (ok: bool, longer: string)
      requires Valid()
      modifies this`offset
      ensures Valid() && offset >= old(offset)
      ensures ok <==> Unicode(old(Rest())).Some?
      ensures ok ==>
                && longer == out + Encode(Unicode(old(Rest())).value.value)
                && Rest() == Unicode(old(Rest())).value.rest
    {
      longer := out;
      var point;
      ok, point := ReadHex();
      if !ok {
        return;
      }
      if 0xD800 <= point <= 0xDBFF {
        ok, point := ReadLow(point);
        if !ok {
          return;
        }
      } else if 0xDC00 <= point <= 0xDFFF {
        ok := false;
        return;
      } else {
        HexBound(old(Rest()), 4, 0, 1);
      }
      longer := out + Encode(point);
    }

    /** The second half of a surrogate pair. */
    method ReadLow(high: nat) returns (ok: bool, point: nat)
      requires Valid() && 0xD800 <= high <= 0xDBFF
      modifies this`offset
      ensures Valid() && offset >= old(offset)
      ensures var t := old(Rest());
              && (ok <==>
                    && |t| >= 6 && t[0] == '\\' && t[1] == 'u' && Hex(t[2..], 4, 0).Some?
                    && 0xDC00 <= Hex(t[2..], 4, 0).value.value <= 0xDFFF)
              && (ok ==>
                    && Rest() == Hex(t[2..], 4, 0).value.rest
                    && point == 0x10000 + (high - 0xD800) * 1024 + Hex(t[2..], 4, 0).value.value - 0xDC00)
    {
      ok, point := false, 0;
      if |source| - offset < 6 || source[offset] != '\\' || source[offset + 1] != 'u' {
        return;
      }
      assert Rest()[2..] == source[offset + 2..];
      offset := offset + 2;
      var low;
      ok, low := ReadHex();
      if !ok || low < 0xDC00 || low > 0xDFFF {
        ok := false;
        return;
      }
      point := 0x10000 + (high - 0xD800) * 1024 + low - 0xDC00;
    }

    /** What follows a backslash, appended. */
    method ReadEscape(out: string) returns (ok: bool, longer: string)
      requires Valid()
      modifies this`offset
      ensures Valid() && offset >= old(offset)
      ensures ok <==> Escape(old(Rest())).Some?
      ensures ok ==> longer == out + Escape(old(Rest())).value.value && Rest() == Escape(old(Rest())).value.rest
    {
      ok, longer := false, out;
      if offset == |source| {
        return;
      }
      var c := source[offset];
      assert Rest()[1..] == source[offset + 1..];
      offset := offset + 1;
      match c {
        case '"' => ok, longer := true, out + "\"";
        case '\\' => ok, longer := true, out + "\\";
        case '/' => ok, longer := true, out + "/";
        case 'b' => ok, longer := true, out + [8 as char];
        case 'f' => ok, longer := true, out + [12 as char];
        case 'n' => ok, longer := true, out + "\n";
        case 'r' => ok, longer := true, out + "\r";
        case 't' => ok, longer := true, out + "\t";
        case 'u' => ok, longer := ReadUnicode(out);
        case _ =>
      }
    }

    /** One pass of the string loop: a closing quote, an escape, or a character that stands for itself. */
    method ReadPiece(out: string) returns (ok: bool, closed: bool, longer: string)
      requires Valid() && offset < |source|
      modifies this`offset
      ensures Valid() && offset > old(offset)
      ensures !ok ==> StringBody(old(Rest())).None?
      ensures ok && closed ==> longer == out && StringBody(old(Rest())) == Some(Parsed("", Rest()))
      ensures ok && !closed ==> After(out, StringBody(old(Rest()))) == After(longer, StringBody(Rest()))
    {
      ok, closed, longer := true, false, out;
      var c := source[offset];
      assert Rest()[1..] == source[offset + 1..];
      offset := offset + 1;
      if c == '"' {
        closed := true;
        return;
      }
      if c as int < 32 {
        ok := false;
        return;
      }
      if c != '\\' {
        AfterTwice(out, [c], StringBody(Rest()));
        longer := out + [c];
        return;
      }
      ghost var escape := Rest();
      ok, longer := ReadEscape(out);
      if ok {
        AfterTwice(out, Escape(escape).value.value, StringBody(Rest()));
      }
    }

    method ReadString() returns (ok: bool, out: string)
      requires Valid()
      modifies this`offset
      ensures Valid() && offset >= old(offset) && (ok ==> offset > old(offset))
      ensures ok <==> StringLiteral(old(Rest())).Some?
      ensures ok ==> StringLiteral(old(Rest())) == Some(Parsed(out, Rest()))
    {
      out := "";
      ok := TakeChar('"');
      if ok {
        ok, out := ReadBody();
      }
    }

    method ReadBody() returns (ok: bool, out: string)
      requires Valid()
      modifies this`offset
      ensures Valid() && offset >= old(offset)
      ensures ok <==> StringBody(old(Rest())).Some?
      ensures ok ==> StringBody(old(Rest())) == Some(Parsed(out, Rest()))
    {
      out := "";
      AfterNothing(StringBody(Rest()));
      while offset < |source|
        invariant Valid() && offset >= old(offset)
        invariant StringBody(old(Rest())) == After(out, StringBody(Rest()))
      {
        var read, closed;
        read, closed, out := ReadPiece(out);
        if !read {
          return false, out;
        }
        if closed {
          assert out + "" == out;
          return true, out;
        }
      }
      ok := false;
    }

    /** The fixed word `word`, if it comes next. */
    method ReadWord(word: string) returns (ok: bool)
      requires Valid() && word != ""
      modifies this`offset
      ensures Valid() && offset >= old(offset)
      ensures ok <==> word <= old(Rest())
      ensures Rest() == if ok then old(Rest())[|word|..] else old(Rest())
      ensures ok ==> offset > old(offset)
    {
      ok := offset + |word| <= |source| && source[offset..offset + |word|] == word;
      assert offset + |word| <= |source| ==>
          && Rest()[..|word|] == source[offset..offset + |word|]
          && Rest()[|word|..] == source[offset + |word|..];
      if ok {
        offset := offset + |word|;
      }
    }

    method ReadNumber() returns (ok: bool, number: nat)
      requires Valid()
      modifies this`offset
      ensures Valid() && offset >= old(offset)
      ensures var t := old(Rest()); var n := SafeInteger(t[..Digits(t)]);
              && (ok <==> n.Some?)
              && (ok ==> offset > old(offset) && n == Some(number) && Rest() == t[Digits(t)..])
    {
      var begin := offset;
      ghost var t := Rest();
      while offset < |source| && '0' <= source[offset] <= '9'
        invariant Valid() && begin <= offset
        invariant Digits(t) == offset - begin + Digits(Rest())
      {
        assert Rest()[1..] == source[offset + 1..];
        offset := offset + 1;
      }
      assert t[..offset - begin] == source[begin..offset] && t[offset - begin..] == Rest();
      var n := SafeInteger(source[begin..offset]);
      ok, number := n.Some?, if n.Some? then n.value else 0;
    }

    method ReadValue(depth: nat) returns (ok: bool, out: Value)
      requires Valid()
      modifies this`offset
      ensures Valid() && offset >= old(offset) && (ok ==> offset > old(offset))
      ensures ok <==> ParseValue(old(Rest()), depth).Some?
      ensures ok ==> ParseValue(old(Rest()), depth) == Some(Parsed(out, Rest()))
      decreases |source| - offset, 1
    {
      ok, out := false, Boolean(false);
      Whitespace();
      if offset == |source| {
        return;
      }
      assert source[offset] == Rest()[0];
      if source[offset] == '{' {
        ok, out := ReadObject(depth);
        return;
      }
      if source[offset] == '"' {
        var text;
        ok, text := ReadString();
        out := Text(text);
        return;
      }
      ok := ReadWord("true");
      if ok {
        out := Boolean(true);
        return;
      }
      ok := ReadWord("false");
      if ok {
        out := Boolean(false);
        return;
      }
      var number;
      ok, number := ReadNumber();
      out := Number(number);
    }

    method ReadField(depth: nat) returns (ok: bool, out: Field)
      requires Valid()
      modifies this`offset
      ensures Valid() && offset >= old(offset) && (ok ==> offset > old(offset))
      ensures ok <==> ParseField(old(Rest()), depth).Some?
      ensures ok ==> ParseField(old(Rest()), depth) == Some(Parsed(out, Rest()))
      decreases |source| - offset, 2
    {
      out := Field("", Boolean(false));
      var key;
      ok, key := ReadString();
      if !ok || |key| > MAX_KEY {
        ok := false;
        return;
      }
      ok := TakeChar(':');
      if !ok {
        return;
      }
      var value;
      ok, value := ReadValue(depth + 1);
      out := Field(key, value);
    }

    method ReadObject(depth: nat) returns (ok: bool, out: Value)
      requires Valid()
      modifies this`offset
      ensures Valid() && offset >= old(offset) && (ok ==> offset > old(offset))
      ensures ok <==> ParseObject(old(Rest()), depth).Some?
      ensures ok ==> ParseObject(old(Rest()), depth) == Some(Parsed(out, Rest()))
      decreases |source| - offset, 0
    {
      out := Object(map[]);
      if depth > MAX_DEPTH {
        return false, out;
      }
      ok := TakeChar('{');
      if !ok {
        return;
      }
      ghost var inside := Rest();
      ok := TakeChar('}');
      if ok {
        return;
      }
      SkippedFields(inside, depth);
      ok, out := ReadFields(depth);
    }

    method ReadFields(depth: nat) returns (ok: bool, out: Value)
      requires Valid()
      modifies this`offset
      ensures Valid() && offset >= old(offset) && (ok ==> offset > old(offset))
      ensures ok <==> ParseFields(old(Rest()), depth, map[]).Some?
      ensures ok ==> ParseFields(old(Rest()), depth, map[]) == Some(Parsed(out, Rest()))
      decreases |source| - offset, 3
    {
      out := Object(map[]);
      var fields := map[];
      var more := true;
      while more
        invariant Valid() && offset >= old(offset) && (offset > old(offset) || more)
        invariant more ==> ParseFields(old(Rest()), depth, map[]) == ParseFields(Rest(), depth, fields)
        invariant !more ==> ParseFields(old(Rest()), depth, map[]) == None
        decreases |source| - offset, more
      {
        ghost var here := Rest();
        var read, field := ReadField(depth);
        if !read || field.key in fields {
          return false, out;
        }
        fields := fields[field.key := field.value];
        if |fields| > MAX_FIELDS {
          return false, out;
        }
        ghost var afterField := Rest();
        var closed := TakeChar('}');
        if closed {
          return true, Object(fields);
        }
        SkipSpaceTwice(afterField);
        more := TakeChar(',');
      }
      return false, out;
    }

    method Run() returns (ok: bool, out: Value)
      requires Valid() && offset == 0
      modifies this`offset
      ensures ok <==> ParseObject(source, 1).Some? && SkipSpace(ParseObject(source, 1).value.rest) == ""
      ensures ok ==> out == ParseObject(source, 1).value.value
    {
      assert Rest() == source;
      ok, out := ReadObject(1);
      if !ok {
        return;
      }
      Whitespace();
      ok := offset == |source|;
    }
  }

  lemma {:induction false} SkippedFields(s: string, depth: nat)
    ensures ParseFields(SkipSpace(s), depth, map[]) == ParseFields(s, depth, map[])
  {
    SkipSpaceTwice(s);
    assert StringLiteral(SkipSpace(s)) == StringLiteral(s);
    assert ParseField(SkipSpace(s), depth) == ParseField(s, depth);
  }

  /** Parses a whole text; on failure nothing is returned. */
  method ParseText(source: string) returns (out: Option<Value>)
    ensures out == Parse(source)
  {
    out := None;
    var text := Utf8Text(source, MAX_TEXT);
    Utf8IsWellFormed(source);
    if !text {
      return;
    }
    var parser := new Parser(source);
    var ok, value := parser.Run();
    if ok {
      out := Some(value);
    }
  }
}
