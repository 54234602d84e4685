/**
 The JSON that requests are printed in (`bound_wire.cpp`), and that the parser reads back exactly what was printed.
 */
module JsonPrinter {
  import opened Wrappers
  import opened Texts
  import opened SafeIntegers
  import opened Utf8
  import opened JsonGrammar
  import Spelled = JsonDocument

  // ----- Quoted strings -----

  function QuoteChar(c: char): string {
    if c == '"' || c == '\\' then ['\\', c]
    else if c as int < 32 then "\\u00" + [HEX[c as int / 16], HEX[c as int % 16]]
    else [c]
  }

  function QuoteAll(text: string): string {
    if text == "" then "" else QuoteChar(text[0]) + QuoteAll(text[1..])
  }

  function Quoted(text: string): string {
    "\"" + QuoteAll(text) + "\""
  }

  lemma {:induction false} QuoteAllConcat(a: string, c: char)
    ensures QuoteAll(a + [c]) == QuoteAll(a) + QuoteChar(c)
  {
    if a == "" {
      assert a + [c] == [c] && [c][1..] == "";
      assert QuoteAll([c]) == QuoteChar(c) + "";
    } else {
      QuoteAllConcat(a[1..], c);
      assert (a + [c])[1..] == a[1..] + [c] && (a + [c])[0] == a[0];
      Assoc(QuoteChar(a[0]), QuoteAll(a[1..]), QuoteChar(c));
    }
  }

  lemma QuoteStep(before: string, text: string, i: nat)
    requires i < |text|
    ensures before + QuoteAll(text[..i]) + QuoteChar(text[i]) == before + QuoteAll(text[..i + 1])
  {
    assert text[..i + 1] == text[..i] + [text[i]];
    QuoteAllConcat(text[..i], text[i]);
    Assoc(before, QuoteAll(text[..i]), QuoteChar(text[i]));
  }

  method AppendChar(prefix: string, c: char) returns (out: string)
    ensures out == prefix + QuoteChar(c)
  {
    if c == '"' || c == '\\' {
      out := prefix + ['\\'];
      out := out + [c];
      assert out == prefix + ['\\', c];
    } else if c as int < 32 {
      out := prefix + "\\u00";
      out := out + [HEX[c as int / 16]];
      out := out + [HEX[c as int % 16]];
      assert out == prefix + ("\\u00" + [HEX[c as int / 16], HEX[c as int % 16]]);
    } else {
      out := prefix + [c];
    }
  }

  method AppendQuoted(prefix: string, text: string) returns (out: string)
    ensures out == prefix + Quoted(text)
  {
    out := prefix + ['"'];
    for i := 0 to |text|
      invariant out == prefix + "\"" + QuoteAll(text[..i])
    {
      var c := text[i];
      QuoteStep(prefix + "\"", text, i);
      out := AppendChar(out, c);
    }
    assert text[..|text|] == text;
    out := out + ['"'];
  }

  /** How the printer spells one byte. */
  function QuotePiece(c: char): Spelled.Piece {
    if c == '"' || c == '\\' then Spelled.Short(c, c as int)
    else if c as int < 32 then Spelled.One(Spelled.Unit(0, 0, c as int / 16, c as int % 16, QuoteChar(c)))
    else Spelled.Raw(c)
  }

  function QuotePieces(text: string): seq<Spelled.Piece> {
    if text == "" then [] else [QuotePiece(text[0])] + QuotePieces(text[1..])
  }

  lemma PieceIsQuoted(c: char)
    ensures Spelled.ValidPiece(QuotePiece(c))
    ensures Spelled.Spelling(QuotePiece(c)) == QuoteChar(c) && Spelled.Bytes(QuotePiece(c)) == [c]
    ensures Spelled.ValidPiece(Spelled.Raw(c)) ==> QuotePiece(c) == Spelled.Raw(c)
  {
    if c as int < 32 {
      HexOf(c as int / 16);
      HexOf(c as int % 16);
    }
  }

  lemma HexOf(d: nat)
    requires d < 16
    ensures Spelled.DigitOf(HEX[d], d)
  {
  }

  lemma {:induction false} PiecesAreQuoted(text: string)
    ensures Spelled.ValidPieces(QuotePieces(text))
    ensures Spelled.SpellAll(QuotePieces(text)) == QuoteAll(text) && Spelled.BytesAll(QuotePieces(text)) == text
  {
    if text != "" {
      PieceIsQuoted(text[0]);
      PiecesAreQuoted(text[1..]);
      assert QuotePieces(text)[1..] == QuotePieces(text[1..]);
      assert text == [text[0]] + text[1..];
    }
  }

  /** Parsing what was quoted gives it back, for every string. */
  lemma {:induction false} QuotedReads(text: string, rest: string)
    ensures StringBody(QuoteAll(text) + "\"" + rest) == Some(Parsed(text, rest))
  {
    PiecesAreQuoted(text);
    Spelled.PiecesRead(QuotePieces(text), rest);
  }

  // ----- Values -----

  datatype Tree =
    | TextTree(text: string)
    | BooleanTree(boolean: bool)
    | NumberTree(number: nat)
    | ObjectTree(members: seq<Member>)

  datatype Member = Member(key: string, tree: Tree)

  function Print(t: Tree): (s: string)
    ensures s != ""
  {
    match t
    case TextTree(text) => Quoted(text)
    case BooleanTree(b) => if b then "true" else "false"
    case NumberTree(n) => Decimal(n)
    case ObjectTree(members) => "{" + PrintMembers(members) + "}"
  }

  function PrintMember(m: Member): (s: string)
    ensures s != "" && s[0] == '"'
  {
    Quoted(m.key) + ":" + Print(m.tree)
  }

  function PrintMembers(members: seq<Member>): (s: string)
    ensures members != [] ==> s != "" && s[0] == '"'
  {
    if members == [] then ""
    else if |members| == 1 then PrintMember(members[0])
    else PrintMember(members[0]) + "," + PrintMembers(members[1..])
  }

  /** The value a tree prints. */
  function Meaning(t: Tree): Value {
    match t
    case TextTree(text) => Text(text)
    case BooleanTree(b) => Boolean(b)
    case NumberTree(n) => Number(n)
    case ObjectTree(members) => Object(Collect(map[], members))
  }

  function Collect(fields: map<string, Value>, members: seq<Member>): map<string, Value>
    decreases members
  {
    if members == [] then fields
    else Collect(fields[members[0].key := Meaning(members[0].tree)], members[1..])
  }

  predicate Distinct(seen: set<string>, members: seq<Member>)
    decreases members
  {
    members == [] || (members[0].key !in seen && Distinct(seen + {members[0].key}, members[1..]))
  }

  /** Within the limits of the parser. */
  predicate Readable(t: Tree, depth: nat) {
    match t
    case TextTree(_) => true
    case BooleanTree(_) => true
    case NumberTree(n) => n <= SAFE_MAX
    case ObjectTree(members) =>
      && depth <= MAX_DEPTH && |members| <= MAX_FIELDS && Distinct({}, members)
      && forall m | m in members :: |m.key| <= MAX_KEY && Readable(m.tree, depth + 1)
  }

  /** What is printed, as a document without white space. */
  function Compact(t: Tree): Spelled.Document
    decreases t
  {
    match t
    case TextTree(text) => Spelled.TextDoc(QuotePieces(text))
    case BooleanTree(b) => Spelled.BooleanDoc(b)
    case NumberTree(n) => Spelled.NumberDoc(n)
    case ObjectTree(members) => Spelled.ObjectDoc(CompactMembers(members), "")
  }

  function CompactMember(m: Member): Spelled.Member
    decreases m
  {
    Spelled.Member("", QuotePieces(m.key), "", "", Compact(m.tree), "")
  }

  function CompactMembers(members: seq<Member>): (ms: seq<Spelled.Member>)
    ensures |ms| == |members|
    decreases members
  {
    if members == [] then [] else [CompactMember(members[0])] + CompactMembers(members[1..])
  }

  lemma {:induction false} CompactIsPrinted(t: Tree, depth: nat)
    requires Readable(t, depth)
    ensures Spelled.Valid(Compact(t), depth)
    ensures Spelled.Write(Compact(t)) == Print(t) && Spelled.Meaning(Compact(t)) == Meaning(t)
    decreases t
  {
    match t
    case TextTree(text) => PiecesAreQuoted(text);
    case BooleanTree(_) =>
    case NumberTree(_) =>
    case ObjectTree(members) =>
      MembersArePrinted(members, depth, {}, map[]);
  }

  lemma {:induction false} MemberIsPrinted(m: Member, depth: nat)
    requires |m.key| <= MAX_KEY && Readable(m.tree, depth + 1)
    ensures var c := CompactMember(m);
            && Spelled.ValidMember(c, depth) && Spelled.WriteMember(c) == PrintMember(m)
            && Spelled.BytesAll(c.key) == m.key && Spelled.Meaning(c.value) == Meaning(m.tree)
    decreases m
  {
    PiecesAreQuoted(m.key);
    CompactIsPrinted(m.tree, depth + 1);
    var c := CompactMember(m);
    WithoutSpace(Spelled.Literal(c.key), Print(m.tree));
  }

  lemma WithoutSpace(key: string, value: string)
    ensures "" + key + ("" + ":" + ("" + value + "")) == key + ":" + value
  {
  }

  lemma {:induction false} MembersArePrinted(members: seq<Member>, depth: nat, seen: set<string>,
                                             fields: map<string, Value>)
    requires Distinct(seen, members)
    requires forall m | m in members :: |m.key| <= MAX_KEY && Readable(m.tree, depth + 1)
    ensures var ms := CompactMembers(members);
            && Spelled.ValidMembers(seen, ms, depth) && Spelled.Collect(fields, ms) == Collect(fields, members)
            && (members != [] ==> Spelled.WriteMembers(ms) == PrintMembers(members))
    decreases members
  {
    if members != [] {
      var m := members[0];
      MemberIsPrinted(m, depth);
      MembersArePrinted(members[1..], depth, seen + {m.key}, fields[m.key := Meaning(m.tree)]);
      assert CompactMembers(members)[1..] == CompactMembers(members[1..]);
    }
  }

  // ----- Whole documents -----

  predicate TreeUtf8(t: Tree) {
    match t
    case TextTree(text) => IsUtf8(text)
    case BooleanTree(_) => true
    case NumberTree(_) => true
    case ObjectTree(members) => forall m | m in members :: IsUtf8(m.key) && TreeUtf8(m.tree)
  }

  /** Printed objects within the limits, with UTF-8 texts, parse to what was printed. */
  lemma {:induction false} PrintedParses(t: Tree)
    requires t.ObjectTree? && Readable(t, 1) && TreeUtf8(t) && |Print(t)| <= MAX_TEXT
    ensures Parse(Print(t)) == Some(Meaning(t))
  {
    CompactIsPrinted(t, 1);
    PrintUtf8(t);
    assert "" + Print(t) + "" == Print(t);
    Spelled.DocumentParses(Print(t), "", Compact(t), "");
  }

  lemma QuoteCharUtf8(c: char)
    requires c as int < 0x80
    ensures IsUtf8(QuoteChar(c))
  {
    AsciiText(QuoteChar(c));
  }

  lemma {:induction false} QuoteAllUtf8(text: string)
    requires IsUtf8(text)
    ensures IsUtf8(QuoteAll(text))
    decreases |text|
  {
    if text != "" {
      CutFirst(text);
      if text[0] as int < 0x80 {
        QuoteAllUtf8(text[1..]);
        QuoteCharUtf8(text[0]);
        Utf8Concat(QuoteChar(text[0]), QuoteAll(text[1..]));
      } else {
        var n := First(text).value.size;
        QuoteAllUtf8(text[n..]);
        HighQuoted(text, n);
        Utf8Concat(text[..n], QuoteAll(text[n..]));
      }
    }
  }

  lemma {:induction false} HighQuoted(text: string, n: nat)
    requires n <= |text| && forall i | 0 <= i < n :: text[i] as int >= 0x80
    ensures QuoteAll(text) == text[..n] + QuoteAll(text[n..])
  {
    if n == 0 {
      assert text[0..] == text;
    } else {
      HighQuoted(text[1..], n - 1);
      var rest := QuoteAll(text[n..]);
      assert text[1..][n - 1..] == text[n..];
      assert QuoteChar(text[0]) == [text[0]];
      assert [text[0]] + (text[1..][..n - 1] + rest) == text[..n] + rest;
    }
  }

  lemma {:induction false} Between(left: string, s: string, right: string)
    requires IsUtf8(s)
    requires forall i | 0 <= i < |left| :: left[i] as int < 0x80
    requires forall i | 0 <= i < |right| :: right[i] as int < 0x80
    ensures IsUtf8(left + s + right)
  {
    AsciiText(left);
    AsciiText(right);
    Utf8Concat(left, s);
    Utf8Concat(left + s, right);
  }

  lemma {:induction false} PrintUtf8(t: Tree)
    requires TreeUtf8(t)
    ensures IsUtf8(Print(t))
    decreases t
  {
    match t
    case TextTree(text) =>
      QuoteAllUtf8(text);
      Between("\"", QuoteAll(text), "\"");
    case BooleanTree(b) =>
      AsciiText(Print(t));
    case NumberTree(n) =>
      AsciiText(Decimal(n));
    case ObjectTree(members) =>
      PrintMembersUtf8(members);
      Between("{", PrintMembers(members), "}");
  }

  lemma {:induction false} KeyUtf8(key: string)
    requires IsUtf8(key)
    ensures IsUtf8(Quoted(key) + ":")
  {
    QuoteAllUtf8(key);
    Between("\"", QuoteAll(key), "\"");
    AsciiText(":");
    Utf8Concat(Quoted(key), ":");
  }

  lemma {:induction false} PrintMemberUtf8(m: Member)
    requires IsUtf8(m.key) && TreeUtf8(m.tree)
    ensures IsUtf8(PrintMember(m))
    decreases m
  {
    KeyUtf8(m.key);
    PrintUtf8(m.tree);
    Utf8Concat(Quoted(m.key) + ":", Print(m.tree));
  }

  lemma {:induction false} PrintMembersUtf8(members: seq<Member>)
    requires forall m | m in members :: IsUtf8(m.key) && TreeUtf8(m.tree)
    ensures IsUtf8(PrintMembers(members))
    decreases members
  {
    if members != [] {
      PrintMemberUtf8(members[0]);
    }
    if |members| > 1 {
      PrintMembersUtf8(members[1..]);
      Between("", PrintMember(members[0]), ",");
      Utf8Concat("" + PrintMember(members[0]) + ",", PrintMembers(members[1..]));
      assert "" + PrintMember(members[0]) == PrintMember(members[0]);
    }
  }
}
