/**
 The texts that the JSON parser accepts (sections 2 to 7 of RFC 8259, within the limits of `bound_json.cpp`), written
 down as documents: every character as itself, as its short escape or as hexadecimal UTF-16 units, and white space
 wherever the grammar allows it. The parser reads exactly these texts, each as what it spells.
 */
module JsonDocument {
  import opened Wrappers
  import opened Texts
  import opened SafeIntegers
  import opened Utf8
  import opened JsonGrammar

  // ----- Spelled strings -----

  /** One UTF-16 unit: its four hexadecimal digits, most significant first, and how they are written. */
  datatype Unit = Unit(a: nat, b: nat, c: nat, d: nat, text: string)

  /** A byte that stands for itself, a short escape, or a scalar value in UTF-16 units. */
  datatype Piece = Raw(c: char) | Short(letter: char, point: Scalar) | One(unit: Unit) | Two(high: Unit, low: Unit)

  /** The short escapes, by code point: quotation mark, reverse solidus, solidus, BS, FF, LF, CR and HT. */
  predicate ShortEscape(letter: char, point: Scalar) {
    (letter, point) in {('"', 0x22), ('\\', 0x5C), ('/', 0x2F), ('b', 0x08), ('f', 0x0C), ('n', 0x0A), ('r', 0x0D),
                        ('t', 0x09)}
  }

  /** A hexadecimal digit in either case. */
  predicate DigitOf(c: char, d: nat) {
    d < 16 && (c == "0123456789abcdef"[d] || c == "0123456789ABCDEF"[d])
  }

  predicate ValidUnit(u: Unit) {
    && |u.text| == 6 && u.text[0] == '\\' && u.text[1] == 'u'
    && DigitOf(u.text[2], u.a) && DigitOf(u.text[3], u.b) && DigitOf(u.text[4], u.c) && DigitOf(u.text[5], u.d)
  }

  function Number(u: Unit): nat {
    u.a * 0x1000 + u.b * 0x100 + u.c * 0x10 + u.d
  }

  predicate Surrogate(unit: nat) {
    0xD800 <= unit <= 0xDFFF
  }

  predicate ValidPiece(p: Piece) {
    match p
    case Raw(c) => c as int >= 0x20 && c as int != 0x22 && c as int != 0x5C
    case Short(letter, point) => ShortEscape(letter, point)
    case One(unit) => ValidUnit(unit) && !Surrogate(Number(unit))
    case Two(high, low) =>
      ValidUnit(high) && ValidUnit(low) && 0xD800 <= Number(high) < 0xDC00 <= Number(low) < 0xE000
  }

  predicate ValidPieces(ps: seq<Piece>) {
    ps == [] || (ValidPiece(ps[0]) && ValidPieces(ps[1..]))
  }

  function Spelling(p: Piece): string {
    match p
    case Raw(c) => [c]
    case Short(letter, _) => ['\\', letter]
    case One(unit) => unit.text
    case Two(high, low) => high.text + low.text
  }

  /** The scalar value of a surrogate pair (section 2.2 of RFC 2781). */
  function PairValue(high: nat, low: nat): (p: Scalar)
    requires 0xD800 <= high < 0xDC00 <= low < 0xE000
  {
    0x10000 + 0x400 * (high - 0xD800) + (low - 0xDC00)
  }

  lemma UnitBound(u: Unit)
    requires ValidUnit(u)
    ensures Number(u) < 0x10000
  {
  }

  /** The scalar value of an escape. */
  function Point(p: Piece): Scalar
    requires ValidPiece(p) && !p.Raw?
  {
    match p
    case Short(_, point) => point
    case One(unit) => UnitBound(unit); Number(unit)
    case Two(high, low) => PairValue(Number(high), Number(low))
  }

  /** The bytes that a valid piece stands for. */
  function Bytes(p: Piece): string {
    if !ValidPiece(p) then "" else if p.Raw? then [p.c] else Encode(Point(p))
  }

  function SpellAll(ps: seq<Piece>): string {
    if ps == [] then "" else Spelling(ps[0]) + SpellAll(ps[1..])
  }

  function BytesAll(ps: seq<Piece>): string {
    if ps == [] then "" else Bytes(ps[0]) + BytesAll(ps[1..])
  }

  function Literal(ps: seq<Piece>): string {
    "\"" + SpellAll(ps) + "\""
  }

  // ----- Spelled strings are read -----

  lemma DigitReads(c: char, d: nat)
    requires DigitOf(c, d)
    ensures HexValue(c) == d
  {
  }

  lemma ReadDigit(c: char)
    requires HexValue(c) < 16
    ensures DigitOf(c, HexValue(c))
  {
  }

  /** Four digits as their number. */
  lemma {:induction false} FourDigits(s: string)
    requires |s| >= 4
    ensures Hex(s, 4, 0) ==
            if HexValue(s[0]) == 16 || HexValue(s[1]) == 16 || HexValue(s[2]) == 16 || HexValue(s[3]) == 16 then None
            else
              Some(Parsed(HexValue(s[0]) * 0x1000 + HexValue(s[1]) * 0x100 + HexValue(s[2]) * 0x10 + HexValue(s[3]),
                          s[4..]))
  {
    assert s[1..][1..] == s[2..] && s[2..][1..] == s[3..] && s[3..][1..] == s[4..];
  }

  lemma UnitReads(u: Unit, rest: string)
    requires ValidUnit(u)
    ensures Hex((u.text + rest)[2..], 4, 0) == Some(Parsed(Number(u), rest))
  {
    var t := (u.text + rest)[2..];
    DigitReads(u.text[2], u.a);
    DigitReads(u.text[3], u.b);
    DigitReads(u.text[4], u.c);
    DigitReads(u.text[5], u.d);
    FourDigits(t);
    assert t[4..] == rest;
  }

  lemma ReadUnit(s: string) returns (u: Unit)
    requires Hex(s, 4, 0).Some?
    ensures ValidUnit(u) && Hex(s, 4, 0).value.value == Number(u)
    ensures "\\u" + s == u.text + Hex(s, 4, 0).value.rest
  {
    FourDigits(s);
    ReadDigit(s[0]);
    ReadDigit(s[1]);
    ReadDigit(s[2]);
    ReadDigit(s[3]);
    u := Unit(HexValue(s[0]), HexValue(s[1]), HexValue(s[2]), HexValue(s[3]), "\\u" + s[..4]);
    assert s == s[..4] + s[4..];
  }

  lemma OneReads(u: Unit, rest: string)
    requires ValidPiece(One(u))
    ensures Unicode((u.text + rest)[2..]) == Some(Parsed(Number(u), rest))
  {
    UnitReads(u, rest);
  }

  lemma TwoRead(high: Unit, low: Unit, rest: string)
    requires ValidPiece(Two(high, low))
    ensures Unicode((high.text + (low.text + rest))[2..]) == Some(Parsed(PairValue(Number(high), Number(low)), rest))
  {
    UnitReads(high, low.text + rest);
    UnitReads(low, rest);
    PairReads((high.text + (low.text + rest))[2..], Number(high), low.text + rest, Number(low), rest);
  }

  lemma {:induction false} PairReads(s: string, high: nat, t: string, low: nat, rest: string)
    requires 0xD800 <= high < 0xDC00 <= low < 0xE000
    requires Hex(s, 4, 0) == Some(Parsed(high, t))
    requires |t| >= 6 && t[0] == '\\' && t[1] == 'u' && Hex(t[2..], 4, 0) == Some(Parsed(low, rest))
    ensures Unicode(s) == Some(Parsed(PairValue(high, low), rest))
  {
  }

  /** An escape of one or two units is read as its scalar value. */
  lemma UnitsRead(p: Piece, rest: string)
    requires ValidPiece(p) && (p.One? || p.Two?)
    ensures var s := Spelling(p) + rest;
            s[0] == '\\' && s[1] == 'u' && Unicode(s[2..]) == Some(Parsed(Point(p), rest))
  {
    if p.One? {
      OneReads(p.unit, rest);
    } else {
      TwoRead(p.high, p.low, rest);
      assert Spelling(p) + rest == p.high.text + (p.low.text + rest);
    }
  }

  lemma EscapeReads(s: string, p: Scalar, rest: string)
    requires |s| >= 2 && s[0] == '\\' && s[1] == 'u' && Unicode(s[2..]) == Some(Parsed(p, rest))
    ensures Escape(s[1..]) == Some(Parsed(Encode(p), rest))
  {
    assert s[1..][1..] == s[2..];
  }

  lemma ShortReads(letter: char, point: Scalar, rest: string)
    requires ShortEscape(letter, point)
    ensures Escape([letter] + rest) == Some(Parsed(Encode(point), rest))
  {
    assert ([letter] + rest)[1..] == rest;
  }

  lemma {:induction false} PieceReads(p: Piece, rest: string)
    requires ValidPiece(p)
    ensures StringBody(Spelling(p) + rest) == After(Bytes(p), StringBody(rest))
  {
    var s := Spelling(p) + rest;
    if p.Raw? {
      assert s[1..] == rest;
    } else {
      if p.Short? {
        ShortReads(p.letter, p.point, rest);
        assert s[1..] == [p.letter] + rest;
      } else {
        UnitsRead(p, rest);
        EscapeReads(s, Point(p), rest);
      }
      EscapedBody(s, Bytes(p), rest);
    }
  }

  lemma {:induction false} EscapedBody(s: string, bytes: string, rest: string)
    requires s != "" && s[0] == '\\' && Escape(s[1..]) == Some(Parsed(bytes, rest))
    ensures StringBody(s) == After(bytes, StringBody(rest))
  {
  }

  lemma {:induction false} EmptyBody(rest: string)
    ensures "" + "\"" + rest == "\"" + rest && StringBody("\"" + rest) == Some(Parsed("", rest))
  {
    assert ("\"" + rest)[1..] == rest;
  }

  lemma {:induction false} PiecesRead(ps: seq<Piece>, rest: string)
    requires ValidPieces(ps)
    ensures StringBody(SpellAll(ps) + "\"" + rest) == Some(Parsed(BytesAll(ps), rest))
  {
    if ps == [] {
      EmptyBody(rest);
    } else {
      PiecesRead(ps[1..], rest);
      PieceReads(ps[0], SpellAll(ps[1..]) + "\"" + rest);
      Quoted(Spelling(ps[0]), SpellAll(ps[1..]), rest);
    }
  }

  /** Every spelling of a text is read as the text. */
  lemma {:induction false} LiteralReads(space: string, ps: seq<Piece>, rest: string)
    requires AllSpace(space) && ValidPieces(ps)
    ensures StringLiteral(space + Literal(ps) + rest) == Some(Parsed(BytesAll(ps), rest))
  {
    PiecesRead(ps, rest);
    TakeReads(space, '"', SpellAll(ps) + "\"" + rest);
    assert space + Literal(ps) + rest == space + ['"'] + (SpellAll(ps) + "\"" + rest);
  }

  // ----- What is read was spelled -----

  lemma UnitsAreSpelled(s: string) returns (p: Piece)
    requires Escape(s).Some? && s[0] == 'u'
    ensures ValidPiece(p) && !p.Raw? && "\\" + s == Spelling(p) + Escape(s).value.rest
    ensures Escape(s).value.value == Encode(Point(p))
  {
    EscapeOfUnits(s);
    p := UnicodeIsSpelled(s[1..]);
    Backslash(s);
  }

  lemma Backslash(s: string)
    requires s != ""
    ensures "\\" + s == ['\\', s[0]] + s[1..]
  {
  }

  lemma EscapeOfUnits(s: string)
    requires Escape(s).Some? && s[0] == 'u'
    ensures Unicode(s[1..]).Some?
    ensures var u := Unicode(s[1..]).value; Escape(s) == Some(Parsed(Encode(u.value), u.rest))
  {
  }

  lemma ShortIsSpelled(s: string) returns (p: Piece)
    requires Escape(s).Some? && s[0] != 'u'
    ensures p.Short? && ValidPiece(p) && p.letter == s[0]
    ensures Escape(s) == Some(Parsed(Encode(Point(p)), s[1..]))
  {
    var bytes := Escape(s).value.value;
    p := Short(s[0], bytes[0] as int);
  }

  lemma UnicodeIsSpelled(t: string) returns (p: Piece)
    requires Unicode(t).Some?
    ensures ValidPiece(p) && !p.Raw? && Point(p) == Unicode(t).value.value
    ensures "\\u" + t == Spelling(p) + Unicode(t).value.rest
  {
    var high := ReadUnit(t);
    if 0xD800 <= Number(high) <= 0xDBFF {
      var low := LowIsSpelled(Hex(t, 4, 0).value.rest);
      p := Two(high, low);
      assert "\\u" + t == high.text + (low.text + Unicode(t).value.rest);
    } else {
      p := One(high);
    }
  }

  /** The second half of a pair. */
  lemma LowIsSpelled(u: string) returns (low: Unit)
    requires |u| >= 6 && u[0] == '\\' && u[1] == 'u' && Hex(u[2..], 4, 0).Some?
    ensures ValidUnit(low) && Number(low) == Hex(u[2..], 4, 0).value.value
    ensures u == low.text + Hex(u[2..], 4, 0).value.rest
  {
    low := ReadUnit(u[2..]);
    assert u == "\\u" + u[2..];
  }

  /** The first piece of a string that does not end yet. */
  lemma FirstIsSpelled(s: string) returns (p: Piece, left: string)
    requires StringBody(s).Some? && s[0] != '"'
    ensures ValidPiece(p) && s == Spelling(p) + left && |left| < |s|
    ensures StringBody(s) == After(Bytes(p), StringBody(left))
  {
    assert s == [s[0]] + s[1..];
    if s[0] != '\\' {
      p, left := Raw(s[0]), s[1..];
    } else {
      left := Escape(s[1..]).value.rest;
      if s[1] == 'u' {
        p := UnitsAreSpelled(s[1..]);
      } else {
        p := ShortIsSpelled(s[1..]);
        Backslash(s[1..]);
      }
      EscapedBody(s, Bytes(p), left);
    }
  }

  lemma {:induction false} BodyIsSpelled(s: string) returns (ps: seq<Piece>)
    requires StringBody(s).Some?
    ensures ValidPieces(ps)
    ensures s == SpellAll(ps) + "\"" + StringBody(s).value.rest && BytesAll(ps) == StringBody(s).value.value
    decreases |s|
  {
    if s[0] == '"' {
      ps := [];
      assert s == "\"" + s[1..];
    } else {
      var p, left := FirstIsSpelled(s);
      var more := BodyIsSpelled(left);
      ps := [p] + more;
      assert ps[1..] == more;
      Quoted(Spelling(p), SpellAll(more), StringBody(s).value.rest);
    }
  }

  lemma LiteralIsSpelled(s: string) returns (space: string, ps: seq<Piece>)
    requires StringLiteral(s).Some?
    ensures AllSpace(space) && ValidPieces(ps) && s == space + Literal(ps) + StringLiteral(s).value.rest
    ensures BytesAll(ps) == StringLiteral(s).value.value
  {
    space := TakeIsWritten(s, '"');
    ps := BodyIsSpelled(Take(s, '"').value);
    Between(space, SpellAll(ps), StringLiteral(s).value.rest);
  }

  lemma Between(space: string, spelled: string, rest: string)
    ensures space + ['"'] + (spelled + "\"" + rest) == space + ("\"" + spelled + "\"") + rest
  {
  }

  lemma Quoted(a: string, b: string, rest: string)
    ensures a + (b + "\"" + rest) == a + b + "\"" + rest
  {
  }

  // ----- White space -----

  /** Space, horizontal tab, line feed and carriage return. */
  predicate AllSpace(s: string) {
    forall i | 0 <= i < |s| :: s[i] as int in {0x20, 0x09, 0x0A, 0x0D}
  }

  lemma {:induction false} SpaceSkipped(space: string, rest: string)
    requires AllSpace(space)
    ensures SkipSpace(space + rest) == SkipSpace(rest)
  {
    if space == "" {
      assert space + rest == rest;
    } else {
      SpaceSkipped(space[1..], rest);
      assert (space + rest)[1..] == space[1..] + rest;
    }
  }

  lemma {:induction false} SkippedSpace(s: string) returns (space: string)
    ensures AllSpace(space) && s == space + SkipSpace(s)
  {
    if s != "" && IsSpace(s[0]) {
      var more := SkippedSpace(s[1..]);
      space := [s[0]] + more;
      Assoc([s[0]], more, SkipSpace(s));
    } else {
      space := "";
    }
  }

  /** A delimiter after white space. */
  lemma TakeReads(space: string, c: char, rest: string)
    requires AllSpace(space) && !IsSpace(c)
    ensures Take(space + [c] + rest, c) == Some(rest)
    ensures forall d | d != c :: Take(space + [c] + rest, d) == None
  {
    SpaceSkipped(space, [c] + rest);
    assert space + [c] + rest == space + ([c] + rest);
    assert ([c] + rest)[1..] == rest;
  }

  lemma TakeIsWritten(s: string, c: char) returns (space: string)
    requires Take(s, c).Some?
    ensures AllSpace(space) && s == space + [c] + Take(s, c).value
  {
    space := SkippedSpace(s);
    var t := SkipSpace(s);
    assert t == [c] + t[1..];
  }

  // ----- Documents -----

  /** `inside` is the white space of an object without members. */
  datatype Document =
    | TextDoc(pieces: seq<Piece>)
    | BooleanDoc(boolean: bool)
    | NumberDoc(number: nat)
    | ObjectDoc(members: seq<Member>, inside: string)

  /** The white space before the key, before the colon, before the value and after the value. */
  datatype Member =
    Member(before: string, key: seq<Piece>, colon: string, after: string, value: Document, end: string)

  /** The limits of the parser: 4 levels, 32 members, keys of 1024 bytes that differ, integers that a double holds. */
  predicate Valid(d: Document, depth: nat) {
    match d
    case TextDoc(pieces) => ValidPieces(pieces)
    case BooleanDoc(_) => true
    case NumberDoc(n) => n <= 9007199254740991
    case ObjectDoc(members, inside) =>
      depth <= 4 && |members| <= 32 && AllSpace(inside) && ValidMembers({}, members, depth)
  }

  predicate ValidMember(m: Member, depth: nat) {
    && AllSpace(m.before) && AllSpace(m.colon) && AllSpace(m.after) && AllSpace(m.end)
    && ValidPieces(m.key) && |BytesAll(m.key)| <= 1024
    && Valid(m.value, depth + 1)
  }

  /** No key is among those seen, or repeats an earlier one. */
  predicate ValidMembers(seen: set<string>, members: seq<Member>, depth: nat)
    decreases members
  {
    members == [] ||
    (&& ValidMember(members[0], depth)
     && BytesAll(members[0].key) !in seen
     && ValidMembers(seen + {BytesAll(members[0].key)}, members[1..], depth))
  }

  function Write(d: Document): (s: string)
    ensures s != ""
  {
    match d
    case TextDoc(pieces) => Literal(pieces)
    case BooleanDoc(b) => if b then "true" else "false"
    case NumberDoc(n) => Decimal(n)
    case ObjectDoc(members, inside) => "{" + (if members == [] then inside else WriteMembers(members)) + "}"
  }

  function WriteMember(m: Member): string {
    m.before + Literal(m.key) + (m.colon + ":" + (m.after + Write(m.value) + m.end))
  }

  /** The members, separated by commas. */
  function WriteMembers(members: seq<Member>): string
    requires members != []
  {
    if |members| == 1 then WriteMember(members[0]) else WriteMember(members[0]) + "," + WriteMembers(members[1..])
  }

  /** What a document says. */
  function Meaning(d: Document): Value
    decreases d
  {
    match d
    case TextDoc(pieces) => Text(BytesAll(pieces))
    case BooleanDoc(b) => Boolean(b)
    case NumberDoc(n) => JsonGrammar.Number(n)
    case ObjectDoc(members, _) => Object(Collect(map[], members))
  }

  function Collect(fields: map<string, Value>, members: seq<Member>): map<string, Value>
    decreases members
  {
    if members == [] then fields
    else Collect(fields[BytesAll(members[0].key) := Meaning(members[0].value)], members[1..])
  }

  // ----- Documents are read -----

  /** What may follow a value. */
  predicate Ends(rest: string) {
    rest != "" && !IsDigit(rest[0])
  }

  lemma EndsAfter(space: string, rest: string)
    requires AllSpace(space) && Ends(rest)
    ensures Ends(space + rest)
  {
  }

  lemma {:induction false} ValueReads(d: Document, depth: nat, space: string, rest: string)
    requires Valid(d, depth) && AllSpace(space) && Ends(rest)
    ensures ParseValue(space + Write(d) + rest, depth) == Some(Parsed(Meaning(d), rest))
    decreases d, 1
  {
    SpaceBefore(space, Write(d), rest, depth);
    match d
    case TextDoc(pieces) => TextReads(pieces, rest, depth);
    case BooleanDoc(b) => WordReads(b, rest, depth);
    case NumberDoc(n) => NumberReads(n, rest, depth);
    case ObjectDoc(_, _) =>
      ObjectReads(d, depth, "", rest);
      assert "" + Write(d) + rest == Write(d) + rest;
  }

  lemma {:induction false} SpaceBefore(space: string, written: string, rest: string, depth: nat)
    requires AllSpace(space)
    ensures ParseValue(space + written + rest, depth) == ParseValue(written + rest, depth)
  {
    SpaceSkipped(space, written + rest);
    Assoc(space, written, rest);
  }

  lemma {:induction false} TextReads(pieces: seq<Piece>, rest: string, depth: nat)
    requires ValidPieces(pieces)
    ensures ParseValue(Literal(pieces) + rest, depth) == Some(Parsed(Text(BytesAll(pieces)), rest))
  {
    LiteralReads("", pieces, rest);
    LiteralStarts(SpellAll(pieces), rest);
    TextValue(Literal(pieces) + rest, depth);
  }

  lemma LiteralStarts(spelled: string, rest: string)
    ensures var s := "\"" + spelled + "\"" + rest; s[0] == '"' && "" + ("\"" + spelled + "\"") + rest == s
  {
  }

  lemma {:induction false} TextValue(t: string, depth: nat)
    requires t != "" && t[0] == '"' && StringLiteral(t).Some?
    ensures ParseValue(t, depth) == Some(Parsed(Text(StringLiteral(t).value.value), StringLiteral(t).value.rest))
  {
  }

  lemma WordReads(b: bool, rest: string, depth: nat)
    ensures ParseValue((if b then "true" else "false") + rest, depth) == Some(Parsed(Boolean(b), rest))
  {
    var word := if b then "true" else "false";
    var s := word + rest;
    assert s[..|word|] == word && s[|word|..] == rest;
    assert "true"[0] == 't' && "false"[0] == 'f';
  }

  lemma {:induction false} DigitsOf(s: string, rest: string)
    requires AllDigits(s) && Ends(rest)
    ensures Digits(s + rest) == |s|
  {
    if s == "" {
      assert s + rest == rest;
    } else {
      DigitsOf(s[1..], rest);
      assert (s + rest)[1..] == s[1..] + rest;
    }
  }

  lemma {:induction false} NumberReads(n: nat, rest: string, depth: nat)
    requires n <= SAFE_MAX && Ends(rest)
    ensures ParseValue(Decimal(n) + rest, depth) == Some(Parsed(JsonGrammar.Number(n), rest))
  {
    var d := Decimal(n);
    var s := d + rest;
    DigitsOf(d, rest);
    SafeIntegerIsDecimal(d, n);
    assert IsDigit(s[0]) && s[..|d|] == d && s[|d|..] == rest;
    assert "true"[0] != s[0] && "false"[0] != s[0];
  }

  lemma Open(space: string, written: string, rest: string)
    ensures space + ("{" + written + "}") + rest == space + ['{'] + (written + "}" + rest)
  {
  }

  lemma {:induction false} ObjectReads(d: Document, depth: nat, space: string, rest: string)
    requires d.ObjectDoc? && Valid(d, depth) && AllSpace(space)
    ensures ParseObject(space + Write(d) + rest, depth) == Some(Parsed(Meaning(d), rest))
    decreases d, 0
  {
    if d.members == [] {
      EmptyReads(d.inside, depth, space, rest);
    } else {
      Open(space, WriteMembers(d.members), rest);
      TakeReads(space, '{', WriteMembers(d.members) + "}" + rest);
      var none: map<string, Value> := map[];
      assert none.Keys == {};
      MembersRead(d.members, depth, none, rest);
      StartsWithKey(d.members, depth, rest);
    }
  }

  lemma {:induction false} EmptyReads(inside: string, depth: nat, space: string, rest: string)
    requires AllSpace(space) && AllSpace(inside) && depth <= 4
    ensures ParseObject(space + ("{" + inside + "}") + rest, depth) == Some(Parsed(Object(map[]), rest))
  {
    Open(space, inside, rest);
    TakeReads(space, '{', inside + "}" + rest);
    TakeReads(inside, '}', rest);
    assert inside + "}" + rest == inside + ['}'] + rest;
  }

  /** The first delimiter of some members is a quotation mark. */
  lemma {:induction false} StartsWithKey(members: seq<Member>, depth: nat, rest: string)
    requires members != [] && ValidMembers({}, members, depth)
    ensures Take(WriteMembers(members) + "}" + rest, '}') == None
  {
    var m := members[0];
    var value := m.colon + ":" + (m.after + Write(m.value) + m.end);
    var after := AfterFirst(members, rest);
    SplitFirst(members, rest);
    OpenQuote(m.before, SpellAll(m.key), value, after);
    TakeReads(m.before, '"', SpellAll(m.key) + "\"" + (value + after));
  }

  lemma OpenQuote(space: string, spelled: string, value: string, rest: string)
    ensures space + ("\"" + spelled + "\"") + value + rest == space + ['"'] + (spelled + "\"" + (value + rest))
  {
  }

  lemma {:induction false} MemberSplit(m: Member, rest: string)
    ensures var value := m.after + Write(m.value) + (m.end + rest);
            WriteMember(m) + rest == m.before + Literal(m.key) + (m.colon + [':'] + value)
  {
    MemberParts(m.before + Literal(m.key), m.colon, m.after + Write(m.value), m.end, rest);
  }

  lemma MemberParts(key: string, colon: string, value: string, end: string, rest: string)
    ensures key + (colon + ":" + (value + end)) + rest == key + (colon + [':'] + (value + (end + rest)))
  {
  }

  lemma {:induction false} MemberReads(m: Member, depth: nat, rest: string)
    requires ValidMember(m, depth) && Ends(rest)
    ensures ParseField(WriteMember(m) + rest, depth) ==
            Some(Parsed(Field(BytesAll(m.key), Meaning(m.value)), m.end + rest))
    decreases m
  {
    EndsAfter(m.end, rest);
    ValueReads(m.value, depth + 1, m.after, m.end + rest);
    var value := m.after + Write(m.value) + (m.end + rest);
    TakeReads(m.colon, ':', value);
    LiteralReads(m.before, m.key, m.colon + [':'] + value);
    MemberSplit(m, rest);
  }

  /** The last field of an object, and one that another follows. */
  lemma FieldsStep(s: string, depth: nat, fields: map<string, Value>, space: string, rest: string)
    requires ParseField(s, depth).Some? && AllSpace(space)
    requires var f := ParseField(s, depth).value.value;
             f.key !in fields && |fields[f.key := f.value]| <= 32
    ensures var f := ParseField(s, depth).value;
            var added := fields[f.value.key := f.value.value];
            && (f.rest == space + ("}" + rest) ==> ParseFields(s, depth, fields) == Some(Parsed(Object(added), rest)))
            && (f.rest == space + ("," + rest) ==> ParseFields(s, depth, fields) == ParseFields(rest, depth, added))
  {
    TakeReads(space, '}', rest);
    TakeReads(space, ',', rest);
    assert space + ['}'] + rest == space + ("}" + rest) && space + [','] + rest == space + ("," + rest);
  }

  /** What follows the first of some written members. */
  function AfterFirst(members: seq<Member>, rest: string): (after: string)
    requires members != []
    ensures Ends(after)
  {
    if |members| == 1 then "}" + rest else "," + (WriteMembers(members[1..]) + "}" + rest)
  }

  lemma {:induction false} SplitFirst(members: seq<Member>, rest: string)
    requires members != []
    ensures WriteMembers(members) + "}" + rest == WriteMember(members[0]) + AfterFirst(members, rest)
  {
    if |members| > 1 {
      Split(WriteMember(members[0]), WriteMembers(members[1..]), rest);
    }
  }

  lemma Split(first: string, more: string, rest: string)
    ensures first + "," + more + "}" + rest == first + ("," + (more + "}" + rest))
  {
  }

  lemma {:induction false} MembersRead(members: seq<Member>, depth: nat, fields: map<string, Value>, rest: string)
    requires members != [] && ValidMembers(fields.Keys, members, depth) && |fields| + |members| <= 32
    ensures ParseFields(WriteMembers(members) + "}" + rest, depth, fields) ==
            Some(Parsed(Object(Collect(fields, members)), rest))
    decreases members
  {
    var m, more := members[0], members[1..];
    var s := WriteMembers(members) + "}" + rest;
    var added := fields[BytesAll(m.key) := Meaning(m.value)];
    SplitFirst(members, rest);
    MemberReads(m, depth, AfterFirst(members, rest));
    if more == [] {
      FieldsStep(s, depth, fields, m.end, rest);
    } else {
      assert added.Keys == fields.Keys + {BytesAll(m.key)};
      MembersRead(more, depth, added, rest);
      FieldsStep(s, depth, fields, m.end, WriteMembers(more) + "}" + rest);
    }
  }

  // ----- What is read was a document -----

  lemma {:induction false} ValueIsWritten(s: string, depth: nat) returns (space: string, d: Document)
    requires ParseValue(s, depth).Some?
    ensures var r := ParseValue(s, depth).value;
            AllSpace(space) && Valid(d, depth) && s == space + Write(d) + r.rest && Meaning(d) == r.value
    decreases |s|, 1
  {
    space := SkippedSpace(s);
    var t := SkipSpace(s);
    if t[0] == '{' {
      var none;
      none, d := ObjectIsWritten(t, depth);
      NoSpace(none, Write(d), ParseValue(s, depth).value.rest);
    } else if t[0] == '"' {
      var none, ps := LiteralIsSpelled(t);
      d := TextDoc(ps);
      NoSpace(none, Literal(ps), ParseValue(s, depth).value.rest);
    } else {
      d := PlainIsWritten(t, depth);
    }
    assert s == space + (Write(d) + ParseValue(s, depth).value.rest);
  }

  /** What starts with something else than white space starts without any. */
  lemma NoSpace(space: string, written: string, rest: string)
    requires AllSpace(space) && written != "" && !IsSpace((space + written + rest)[0])
    ensures space + written + rest == written + rest
  {
  }

  /** A word or a number. */
  lemma PlainIsWritten(t: string, depth: nat) returns (d: Document)
    requires t != "" && t[0] != '{' && t[0] != '"' && !IsSpace(t[0]) && ParseValue(t, depth).Some?
    ensures var r := ParseValue(t, depth).value;
            Valid(d, depth) && t == Write(d) + r.rest && Meaning(d) == r.value
  {
    if "true" <= t {
      d := BooleanDoc(true);
    } else if "false" <= t {
      d := BooleanDoc(false);
    } else {
      var n := SafeInteger(t[..Digits(t)]).value;
      SafeIntegerIsDecimal(t[..Digits(t)], n);
      d := NumberDoc(n);
    }
  }

  lemma {:induction false} ObjectIsWritten(s: string, depth: nat) returns (space: string, d: Document)
    requires ParseObject(s, depth).Some?
    ensures var r := ParseObject(s, depth).value;
            && AllSpace(space) && d.ObjectDoc? && Valid(d, depth)
            && s == space + Write(d) + r.rest && Meaning(d) == r.value
    decreases |s|, 0
  {
    var rest := ParseObject(s, depth).value.rest;
    space := TakeIsWritten(s, '{');
    var left := Take(s, '{').value;
    if Take(left, '}').Some? {
      var inside := TakeIsWritten(left, '}');
      d := ObjectDoc([], inside);
      assert left == inside + "}" + rest;
      Open(space, inside, rest);
    } else {
      var members := FieldsAreWritten(left, depth, map[]);
      d := ObjectDoc(members, "");
      var none: map<string, Value> := map[];
      assert none.Keys == {};
      Open(space, WriteMembers(members), rest);
    }
  }

  lemma {:induction false} FieldIsWritten(s: string, depth: nat, space: string, rest: string)
    returns (m: Member)
    requires ParseField(s, depth).Some? && AllSpace(space) && ParseField(s, depth).value.rest == space + rest
    ensures var f := ParseField(s, depth).value.value;
            && ValidMember(m, depth) && s == WriteMember(m) + rest
            && BytesAll(m.key) == f.key && Meaning(m.value) == f.value
    decreases |s|, 2
  {
    var before, key := LiteralIsSpelled(s);
    var colon := TakeIsWritten(StringLiteral(s).value.rest, ':');
    var value := Take(StringLiteral(s).value.rest, ':').value;
    var after, d := ValueIsWritten(value, depth + 1);
    m := Member(before, key, colon, after, d, space);
    assert value == after + Write(d) + (space + rest);
    MemberSplit(m, rest);
  }

  lemma {:induction false} FieldsAreWritten(s: string, depth: nat, fields: map<string, Value>)
    returns (members: seq<Member>)
    requires ParseFields(s, depth, fields).Some?
    ensures var r := ParseFields(s, depth, fields).value;
            && members != [] && |fields| + |members| <= 32 && ValidMembers(fields.Keys, members, depth)
            && s == WriteMembers(members) + "}" + r.rest && r.value == Object(Collect(fields, members))
    decreases |s|, 4
  {
    var field := ParseField(s, depth).value;
    var added := fields[field.value.key := field.value.value];
    assert added.Keys == fields.Keys + {field.value.key};
    if Take(field.rest, '}').Some? {
      members := LastIsWritten(s, depth, fields);
    } else {
      var left := Take(field.rest, ',').value;
      var space := TakeIsWritten(field.rest, ',');
      assert field.rest == space + ("," + left);
      var more := FieldsAreWritten(left, depth, added);
      var m := FieldIsWritten(s, depth, space, "," + left);
      members := [m] + more;
      assert members[1..] == more;
      SplitFirst(members, ParseFields(left, depth, added).value.rest);
    }
  }

  lemma {:induction false} LastIsWritten(s: string, depth: nat, fields: map<string, Value>)
    returns (members: seq<Member>)
    requires ParseFields(s, depth, fields).Some? && Take(ParseField(s, depth).value.rest, '}').Some?
    ensures var r := ParseFields(s, depth, fields).value;
            && |members| == 1 && |fields| + 1 <= 32 && ValidMembers(fields.Keys, members, depth)
            && s == WriteMembers(members) + "}" + r.rest && r.value == Object(Collect(fields, members))
    decreases |s|, 3
  {
    var field := ParseField(s, depth).value;
    var left := Take(field.rest, '}').value;
    var space := TakeIsWritten(field.rest, '}');
    assert field.rest == space + ("}" + left);
    var m := FieldIsWritten(s, depth, space, "}" + left);
    members := [m];
    SplitFirst(members, left);
    OneMember(m, fields, depth);
    LastField(s, depth, fields);
  }

  lemma {:induction false} LastField(s: string, depth: nat, fields: map<string, Value>)
    requires ParseFields(s, depth, fields).Some? && Take(ParseField(s, depth).value.rest, '}').Some?
    ensures var f := ParseField(s, depth).value;
            var added := fields[f.value.key := f.value.value];
            && f.value.key !in fields && |added| <= 32
            && ParseFields(s, depth, fields).value == Parsed(Object(added), Take(f.rest, '}').value)
  {
  }

  lemma {:induction false} OneMember(m: Member, fields: map<string, Value>, depth: nat)
    requires ValidMember(m, depth) && BytesAll(m.key) !in fields
    ensures ValidMembers(fields.Keys, [m], depth)
    ensures Collect(fields, [m]) == fields[BytesAll(m.key) := Meaning(m.value)]
  {
    assert [m][1..] == [];
  }

  // ----- Whole texts -----

  /** A text that is one object, with white space around it. */
  ghost predicate IsDocument(source: string, before: string, d: Document, after: string) {
    AllSpace(before) && AllSpace(after) && d.ObjectDoc? && Valid(d, 1) && source == before + Write(d) + after
  }

  /**
   The parser accepts exactly the UTF-8 texts of at most 16384 bytes that are one document, in any spelling, and
   returns what the document says.
   */
  lemma {:induction false} ParseIsMeaning(source: string, v: Value)
    ensures Parse(source) == Some(v) <==>
            && |source| <= 16384 && IsUtf8(source)
            && exists before, d, after :: IsDocument(source, before, d, after) && Meaning(d) == v
  {
    if Parse(source) == Some(v) {
      var before, d := ObjectIsWritten(source, 1);
      var after := SkippedSpace(ParseObject(source, 1).value.rest);
      assert IsDocument(source, before, d, after);
    }
    if |source| <= 16384 && IsUtf8(source) {
      forall before, d, after | IsDocument(source, before, d, after) && Meaning(d) == v
        ensures Parse(source) == Some(v)
      {
        DocumentParses(source, before, d, after);
      }
    }
  }

  lemma {:induction false} DocumentParses(source: string, before: string, d: Document, after: string)
    requires IsDocument(source, before, d, after) && |source| <= 16384 && IsUtf8(source)
    ensures Parse(source) == Some(Meaning(d))
  {
    ObjectReads(d, 1, before, after);
    SpaceSkipped(after, "");
    assert after + "" == after;
  }

  /** However an object is written, it is written with one meaning. */
  lemma {:induction false} MeaningIsUnique(source: string, before: string, d: Document, after: string,
                        lead: string, e: Document, trail: string)
    requires IsDocument(source, before, d, after) && IsDocument(source, lead, e, trail)
    ensures Meaning(d) == Meaning(e)
  {
    ObjectReads(d, 1, before, after);
    ObjectReads(e, 1, lead, trail);
  }
}
