/**
 The character-level half of the backup inventory scanner (`snapshot-inventory.ts`), as a function from one
 lexer state and character to the next state and the tokens emitted; and the lexical grammar it is proved
 against: every text printed from separated pieces lexes back to the tokens of those pieces.
 */
module SqlLexer {
  datatype Kind = Word | Identifier | Text | Punctuation

  datatype Token = Token(kind: Kind, value: string)

  datatype Mode =
    | Normal
    | Dash
    | Slash
    | LineComment
    | BlockComment
    | BlockCommentStar
    | SingleQuote
    | SingleQuoteEnd
    | DoubleQuote
    | DoubleQuoteEnd
    | Backtick
    | BacktickEnd
    | Bracket

  /** The lexer's fields, and the tokens it has emitted so far. */
  datatype Scan = Scan(mode: Mode, word: string, quoted: string, tokens: seq<Token>)
  {
    function Emit(token: Token): Scan {
      this.(tokens := tokens + [token])
    }
  }

  /** Between tokens. */
  function Idle(tokens: seq<Token>): Scan {
    Scan(Normal, "", "", tokens)
  }

  datatype Outcome<+T> = Success(value: T) | InvalidSqlStream

  // ----- Characters -----

  predicate IsWordChar(c: char) {
    'A' <= c <= 'Z' || 'a' <= c <= 'z' || '0' <= c <= '9' || c == '_' || c == '$'
  }

  /** The class `\s` of ECMAScript regular expressions. */
  predicate IsSpace(c: char) {
    || c in {'\t', '\n', '\U{0B}', '\U{0C}', '\r', ' ', '\U{A0}', '\U{1680}', '\U{2028}', '\U{2029}', '\U{202F}'}
    || '\U{2000}' <= c <= '\U{200A}'
    || c in {'\U{205F}', '\U{3000}', '\U{FEFF}'}
  }

  /** The characters of words, and of the two classes of ECMAScript that `\s` stands for, by code point. */
  lemma CharacterClasses(c: char)
    ensures IsWordChar(c) <==>
            c in {'A', 'B', 'C', 'D', 'E', 'F', 'G', 'H', 'I', 'J', 'K', 'L', 'M',
                  'N', 'O', 'P', 'Q', 'R', 'S', 'T', 'U', 'V', 'W', 'X', 'Y', 'Z',
                  'a', 'b', 'c', 'd', 'e', 'f', 'g', 'h', 'i', 'j', 'k', 'l', 'm',
                  'n', 'o', 'p', 'q', 'r', 's', 't', 'u', 'v', 'w', 'x', 'y', 'z',
                  '0', '1', '2', '3', '4', '5', '6', '7', '8', '9', '_', '$'}
    ensures IsSpace(c) <==>
            c as int in {0x09, 0x0B, 0x0C, 0xFEFF, 0x20, 0xA0, 0x1680, 0x2000, 0x2001, 0x2002, 0x2003, 0x2004, 0x2005,
                         0x2006, 0x2007, 0x2008, 0x2009, 0x200A, 0x202F, 0x205F, 0x3000, 0x0A, 0x0D, 0x2028, 0x2029}
  {
  }

  /** The length of a string in UTF-16 code units. */
  function Units(s: string): nat {
    if s == "" then 0 else Units(s[..|s| - 1]) + if s[|s| - 1] as int >= 0x1_0000 then 2 else 1
  }

  /** Words and identifiers stop growing at 256 code units. */
  function AppendCapped(s: string, c: char): string {
    if Units(s) < 256 then s + [c] else s
  }

  function Capped(prefix: string, s: string): string
    decreases |s|
  {
    if s == "" then prefix else Capped(AppendCapped(prefix, s[0]), s[1..])
  }

  /** How many characters need two code units. */
  function Supplementary(s: string): nat {
    if s == "" then 0 else Supplementary(s[1..]) + if s[0] as int > 0xFFFF then 1 else 0
  }

  lemma {:induction false} SupplementaryLast(s: string)
    requires s != ""
    ensures Supplementary(s) == Supplementary(s[..|s| - 1]) + if s[|s| - 1] as int > 0xFFFF then 1 else 0
    decreases |s|
  {
    if |s| > 1 {
      SupplementaryLast(s[1..]);
      assert s[1..][..|s| - 2] == s[..|s| - 1][1..];
    } else {
      assert s[1..] == "" && s[..0] == "";
    }
  }

  lemma {:induction false} UnitsAre(s: string)
    ensures Units(s) == |s| + Supplementary(s)
    decreases |s|
  {
    if s != "" {
      SupplementaryLast(s);
      UnitsAre(s[..|s| - 1]);
    }
  }

  lemma {:induction false} UnitsGrow(s: string, k: nat)
    requires k <= |s|
    ensures Units(s[..k]) + |s| - k <= Units(s)
    decreases |s|
  {
    if k < |s| {
      UnitsGrow(s[..|s| - 1], k);
      assert s[..|s| - 1][..k] == s[..k];
    } else {
      assert s[..k] == s;
    }
  }

  lemma {:induction false} CappedGoesOn(prefix: string, s: string)
    requires prefix != "" ==> Units(prefix[..|prefix| - 1]) < 256
    ensures var c := Capped(prefix, s);
            && c <= prefix + s && (c != "" ==> Units(c[..|c| - 1]) < 256)
            && (c != prefix + s ==> Units(c) >= 256)
    decreases |s|
  {
    if s == "" {
      assert prefix + s == prefix;
    } else if Units(prefix) < 256 {
      assert prefix + s == (prefix + [s[0]]) + s[1..] && (prefix + [s[0]])[..|prefix|] == prefix;
      CappedGoesOn(prefix + [s[0]], s[1..]);
    } else {
      CappedStays(prefix, s);
    }
  }

  lemma {:induction false} CappedStays(prefix: string, s: string)
    requires Units(prefix) >= 256
    ensures Capped(prefix, s) == prefix
    decreases |s|
  {
    if s != "" {
      CappedStays(prefix, s[1..]);
    }
  }

  /** What is kept of a name is its shortest beginning of at least 256 code units, or all of it. */
  lemma {:induction false} CappedIsCut(s: string)
    ensures var c := Capped("", s);
            && c <= s && (c != s ==> |c| + Supplementary(c) >= 256)
            && (c != "" ==> |c| - 1 + Supplementary(c[..|c| - 1]) < 256)
  {
    CappedGoesOn("", s);
    assert "" + s == s;
    var c := Capped("", s);
    UnitsAre(c);
    if c != "" {
      UnitsAre(c[..|c| - 1]);
    }
  }

  /** Names of at most 256 code units are kept whole. */
  lemma {:induction false} CappedWhole(s: string)
    requires |s| + Supplementary(s) <= 256
    ensures Capped("", s) == s
  {
    CappedGoesOn("", s);
    assert "" + s == s;
    UnitsAre(s);
    var c := Capped("", s);
    UnitsGrow(s, |c|);
    assert s[..|c|] == c && s[..|s|] == s;
  }

  // ----- One character -----

  function FlushWord(s: Scan): Scan {
    if s.word != "" then s.Emit(Token(Word, s.word)).(word := "") else s
  }

  function FlushQuotedIdentifier(s: Scan): Scan {
    s.Emit(Token(Identifier, s.quoted)).(quoted := "")
  }

  /** A character in the mode `Normal`. */
  function StepNormal(s: Scan, c: char): Scan {
    if IsWordChar(c) then s.(mode := Normal, word := AppendCapped(s.word, c))
    else
      var n := FlushWord(s).(mode := Normal);
      if IsSpace(c) then n
      else if c == '-' then n.(mode := Dash)
      else if c == '/' then n.(mode := Slash)
      else if c == '\'' then n.(mode := SingleQuote)
      else if c == '"' then n.(mode := DoubleQuote, quoted := "")
      else if c == '`' then n.(mode := Backtick, quoted := "")
      else if c == '[' then n.(mode := Bracket, quoted := "")
      else n.Emit(Token(Punctuation, [c]))
  }

  /** One character; a state that only it could have extended emits its token and rereads it as `Normal`. */
  function Step(s: Scan, c: char): Scan {
    match s.mode
    case Normal => StepNormal(s, c)
    case Dash =>
      if c == '-' then s.(mode := LineComment) else StepNormal(s.Emit(Token(Punctuation, "-")), c)
    case Slash =>
      if c == '*' then s.(mode := BlockComment) else StepNormal(s.Emit(Token(Punctuation, "/")), c)
    case LineComment =>
      if c == '\n' || c == '\r' then s.(mode := Normal) else s
    case BlockComment =>
      if c == '*' then s.(mode := BlockCommentStar) else s
    case BlockCommentStar =>
      if c == '/' then s.(mode := Normal) else if c != '*' then s.(mode := BlockComment) else s
    case SingleQuote =>
      if c == '\'' then s.(mode := SingleQuoteEnd) else s
    case SingleQuoteEnd =>
      if c == '\'' then s.(mode := SingleQuote) else StepNormal(s.Emit(Token(Text, "")), c)
    case DoubleQuote =>
      if c == '"' then s.(mode := DoubleQuoteEnd) else s.(quoted := AppendCapped(s.quoted, c))
    case DoubleQuoteEnd =>
      if c == '"' then s.(mode := DoubleQuote, quoted := AppendCapped(s.quoted, c))
      else StepNormal(FlushQuotedIdentifier(s), c)
    case Backtick =>
      if c == '`' then s.(mode := BacktickEnd) else s.(quoted := AppendCapped(s.quoted, c))
    case BacktickEnd =>
      if c == '`' then s.(mode := Backtick, quoted := AppendCapped(s.quoted, c))
      else StepNormal(FlushQuotedIdentifier(s), c)
    case Bracket =>
      if c == ']' then FlushQuotedIdentifier(s).(mode := Normal) else s.(quoted := AppendCapped(s.quoted, c))
  }

  // ----- Whole texts -----

  function Run(s: Scan, text: string): Scan
    decreases |text|
  {
    if text == "" then s else Run(Step(s, text[0]), text[1..])
  }

  /** The tokens once the text has ended; an unfinished quote or block comment is an error. */
  function End(s: Scan): Outcome<seq<Token>> {
    match s.mode
    case Normal => Success(FlushWord(s).tokens)
    case Dash => Success(s.Emit(Token(Punctuation, "-")).tokens)
    case Slash => Success(s.Emit(Token(Punctuation, "/")).tokens)
    case LineComment => Success(s.tokens)
    case SingleQuoteEnd => Success(s.Emit(Token(Text, "")).tokens)
    case DoubleQuoteEnd => Success(FlushQuotedIdentifier(s).tokens)
    case BacktickEnd => Success(FlushQuotedIdentifier(s).tokens)
    case _ => InvalidSqlStream
  }

  /** Any chunking of a text gives the same state and tokens. */
  lemma {:induction false} RunConcat(s: Scan, a: string, b: string)
    ensures Run(s, a + b) == Run(Run(s, a), b)
    decreases |a|
  {
    if a == "" {
      assert a + b == b;
    } else {
      assert (a + b)[1..] == a[1..] + b;
      RunConcat(Step(s, a[0]), a[1..], b);
    }
  }

  lemma {:induction false} RunOne(s: Scan, c: char)
    ensures Run(s, [c]) == Step(s, c)
  {
    assert [c][1..] == "";
  }

  lemma {:induction false} RunTwo(s: Scan, a: char, b: char)
    ensures Run(s, [a, b]) == Step(Step(s, a), b)
  {
    assert [a, b][1..] == [b];
    RunOne(Step(s, a), b);
  }

  // ----- The lexical grammar -----

  datatype Piece =
    | Plain(word: string)
    | Literal(content: string)
    | DoubleQuoted(name: string)
    | Backticked(name: string)
    | Bracketed(name: string)
    | Punct(c: char)
    | Space(c: char)
    | LineNote(text: string, end: string)
    | BlockNote(text: string)

  predicate IsPunct(c: char) {
    !IsWordChar(c) && !IsSpace(c) && c !in {'\'', '"', '`', '['}
  }

  /** `*` and `/` are never adjacent in this order. */
  predicate NoCommentEnd(text: string) {
    forall i | 0 < i < |text| :: !(text[i - 1] == '*' && text[i] == '/')
  }

  predicate ValidPiece(p: Piece) {
    match p
    case Plain(word) => word != "" && forall i | 0 <= i < |word| :: IsWordChar(word[i])
    case Literal(_) => true
    case DoubleQuoted(_) => true
    case Backticked(_) => true
    case Bracketed(name) => ']' !in name
    case Punct(c) => IsPunct(c)
    case Space(c) => IsSpace(c)
    case LineNote(text, end) => '\n' !in text && '\r' !in text && end in {"\n", "\r", ""}
    case BlockNote(text) => NoCommentEnd(text)
  }

  /** The text with every `q` doubled. */
  function Doubled(s: string, q: char): string {
    if s == "" then "" else (if s[0] == q then [q, q] else [s[0]]) + Doubled(s[1..], q)
  }

  function Print(p: Piece): string {
    match p
    case Plain(word) => word
    case Literal(content) => "'" + Doubled(content, '\'') + "'"
    case DoubleQuoted(name) => "\"" + Doubled(name, '"') + "\""
    case Backticked(name) => "`" + Doubled(name, '`') + "`"
    case Bracketed(name) => "[" + name + "]"
    case Punct(c) => [c]
    case Space(c) => [c]
    case LineNote(text, end) => "--" + text + end
    case BlockNote(text) => "/*" + text + "*/"
  }

  /** The token a piece stands for; spaces and comments stand for none. */
  function Tokens(p: Piece): seq<Token> {
    match p
    case Plain(word) => [Token(Word, Capped("", word))]
    case Literal(_) => [Token(Text, "")]
    case DoubleQuoted(name) => [Token(Identifier, Capped("", name))]
    case Backticked(name) => [Token(Identifier, Capped("", name))]
    case Bracketed(name) => [Token(Identifier, Capped("", name))]
    case Punct(c) => [Token(Punctuation, [c])]
    case _ => []
  }

  /** The character after a piece does not extend it; a comment without an end is the last piece. */
  predicate Separated(p: Piece, rest: string) {
    rest == "" ||
    match p
    case Plain(_) => !IsWordChar(rest[0])
    case Literal(_) => rest[0] != '\''
    case DoubleQuoted(_) => rest[0] != '"'
    case Backticked(_) => rest[0] != '`'
    case Punct(c) => !(c == '-' && rest[0] == '-') && !(c == '/' && rest[0] == '*')
    case LineNote(_, end) => end != ""
    case _ => true
  }

  function PrintAll(ps: seq<Piece>): string {
    if ps == [] then "" else Print(ps[0]) + PrintAll(ps[1..])
  }

  predicate ValidPieces(ps: seq<Piece>) {
    ps == [] || (ValidPiece(ps[0]) && Separated(ps[0], PrintAll(ps[1..])) && ValidPieces(ps[1..]))
  }

  function AllTokens(ps: seq<Piece>): seq<Token> {
    if ps == [] then [] else Tokens(ps[0]) + AllTokens(ps[1..])
  }

  /** What a piece writes down: the token with its whole name. */
  function Written(p: Piece): seq<Token> {
    match p
    case Plain(word) => [Token(Word, word)]
    case Literal(_) => [Token(Text, "")]
    case DoubleQuoted(name) => [Token(Identifier, name)]
    case Backticked(name) => [Token(Identifier, name)]
    case Bracketed(name) => [Token(Identifier, name)]
    case Punct(c) => [Token(Punctuation, [c])]
    case Space(_) => []
    case LineNote(_, _) => []
    case BlockNote(_) => []
  }

  function AllWritten(ps: seq<Piece>): seq<Token> {
    if ps == [] then [] else Written(ps[0]) + AllWritten(ps[1..])
  }

  /** Words and names of at most 256 UTF-16 code units. */
  predicate FitName(p: Piece) {
    p.Plain? || p.DoubleQuoted? || p.Backticked? || p.Bracketed? ==>
      var name := Written(p)[0].value; |name| + Supplementary(name) <= 256
  }

  /** Such names are kept whole. */
  lemma {:induction false} FitNamesAreWritten(ps: seq<Piece>)
    requires forall p | p in ps :: FitName(p)
    ensures AllTokens(ps) == AllWritten(ps)
  {
    if ps != [] {
      assert ps[0] in ps;
      if ps[0].Plain? || ps[0].DoubleQuoted? || ps[0].Backticked? || ps[0].Bracketed? {
        CappedWhole(Written(ps[0])[0].value);
      }
      FitNamesAreWritten(ps[1..]);
    }
  }

  /** The state just before the character that ends a piece. */
  function After(p: Piece, ts: seq<Token>): Scan {
    match p
    case Plain(word) => Scan(Normal, Capped("", word), "", ts)
    case Literal(_) => Scan(SingleQuoteEnd, "", "", ts)
    case DoubleQuoted(name) => Scan(DoubleQuoteEnd, "", Capped("", name), ts)
    case Backticked(name) => Scan(BacktickEnd, "", Capped("", name), ts)
    case Punct(c) =>
      if c == '-' then Scan(Dash, "", "", ts)
      else if c == '/' then Scan(Slash, "", "", ts)
      else Idle(ts + [Token(Punctuation, [c])])
    case Bracketed(name) => Idle(ts + [Token(Identifier, Capped("", name))])
    case LineNote(_, end) => Idle(ts).(mode := if end == "" then LineComment else Normal)
    case _ => Idle(ts)
  }

  // ----- Printed pieces lex back -----

  lemma {:induction false} WordRun(s: Scan, word: string)
    requires s.mode == Normal && forall i | 0 <= i < |word| :: IsWordChar(word[i])
    ensures Run(s, word) == s.(word := Capped(s.word, word))
    decreases |word|
  {
    if word != "" {
      WordRun(Step(s, word[0]), word[1..]);
    }
  }

  lemma {:induction false} LiteralRun(s: Scan, content: string)
    requires s.mode == SingleQuote
    ensures Run(s, Doubled(content, '\'')) == s
    decreases |content|
  {
    if content != "" {
      var head := if content[0] == '\'' then ['\'', '\''] else [content[0]];
      RunConcat(s, head, Doubled(content[1..], '\''));
      RunTwo(s, '\'', '\'');
      RunOne(s, content[0]);
      LiteralRun(s, content[1..]);
    }
  }

  lemma {:induction false} QuotedRun(s: Scan, q: char, name: string)
    requires (s.mode == DoubleQuote && q == '"') || (s.mode == Backtick && q == '`')
    ensures Run(s, Doubled(name, q)) == s.(quoted := Capped(s.quoted, name))
    decreases |name|
  {
    if name != "" {
      var head := if name[0] == q then [q, q] else [name[0]];
      RunConcat(s, head, Doubled(name[1..], q));
      RunTwo(s, q, q);
      RunOne(s, name[0]);
      QuotedRun(s.(quoted := AppendCapped(s.quoted, name[0])), q, name[1..]);
    }
  }

  lemma {:induction false} BracketRun(s: Scan, name: string)
    requires s.mode == Bracket && ']' !in name
    ensures Run(s, name) == s.(quoted := Capped(s.quoted, name))
    decreases |name|
  {
    if name != "" {
      BracketRun(Step(s, name[0]), name[1..]);
    }
  }

  lemma {:induction false} LineRun(s: Scan, text: string)
    requires s.mode == LineComment && '\n' !in text && '\r' !in text
    ensures Run(s, text) == s
    decreases |text|
  {
    if text != "" {
      LineRun(s, text[1..]);
    }
  }

  /** Inside a block comment. */
  lemma {:induction false} BlockRun(s: Scan, text: string)
    requires s.mode == BlockComment || s.mode == BlockCommentStar
    requires NoCommentEnd(text) && (s.mode == BlockCommentStar && text != "" ==> text[0] != '/')
    ensures Run(s, text) == s.(mode := BlockComment) || Run(s, text) == s.(mode := BlockCommentStar)
    decreases |text|
  {
    if text != "" {
      var rest := text[1..];
      forall i | 0 < i < |rest|
        ensures !(rest[i - 1] == '*' && rest[i] == '/')
      {
        assert rest[i - 1] == text[i] && rest[i] == text[i + 1];
      }
      BlockRun(Step(s, text[0]), rest);
    }
  }

  lemma {:induction false} RunBetween(s: Scan, open: string, content: string, close: string)
    ensures Run(s, open + content + close) == Run(Run(Run(s, open), content), close)
  {
    RunConcat(s, open + content, close);
    RunConcat(s, open, content);
  }

  /** The character that opens a quotation, and the one that may end it. */
  lemma QuoteModes(ts: seq<Token>, name: string)
    ensures Step(Idle(ts), '\'') == Idle(ts).(mode := SingleQuote)
    ensures Step(Idle(ts), '"') == Idle(ts).(mode := DoubleQuote)
    ensures Step(Idle(ts), '`') == Idle(ts).(mode := Backtick)
    ensures Step(Idle(ts).(mode := SingleQuote), '\'') == Idle(ts).(mode := SingleQuoteEnd)
    ensures Step(Scan(DoubleQuote, "", name, ts), '"') == Scan(DoubleQuoteEnd, "", name, ts)
    ensures Step(Scan(Backtick, "", name, ts), '`') == Scan(BacktickEnd, "", name, ts)
  {
  }

  lemma CommentModes(ts: seq<Token>)
    ensures Run(Idle(ts), "--") == Idle(ts).(mode := LineComment)
    ensures Run(Idle(ts), "/*") == Idle(ts).(mode := BlockComment)
  {
    RunTwo(Idle(ts), '-', '-');
    RunTwo(Idle(ts), '/', '*');
  }

  lemma LiteralPiece(content: string, ts: seq<Token>)
    ensures Run(Idle(ts), Print(Literal(content))) == After(Literal(content), ts)
  {
    var s := Idle(ts);
    QuoteModes(ts, "");
    RunBetween(s, "'", Doubled(content, '\''), "'");
    RunOne(s, '\'');
    LiteralRun(s.(mode := SingleQuote), content);
    RunOne(s.(mode := SingleQuote), '\'');
  }

  lemma DoubleQuotedPiece(name: string, ts: seq<Token>)
    ensures Run(Idle(ts), Print(DoubleQuoted(name))) == After(DoubleQuoted(name), ts)
  {
    var s := Idle(ts);
    QuoteModes(ts, Capped("", name));
    RunBetween(s, "\"", Doubled(name, '"'), "\"");
    RunOne(s, '"');
    QuotedRun(s.(mode := DoubleQuote), '"', name);
    RunOne(s.(mode := DoubleQuote, quoted := Capped("", name)), '"');
  }

  lemma BacktickedPiece(name: string, ts: seq<Token>)
    ensures Run(Idle(ts), Print(Backticked(name))) == After(Backticked(name), ts)
  {
    var s := Idle(ts);
    QuoteModes(ts, Capped("", name));
    RunBetween(s, "`", Doubled(name, '`'), "`");
    RunOne(s, '`');
    QuotedRun(s.(mode := Backtick), '`', name);
    RunOne(s.(mode := Backtick, quoted := Capped("", name)), '`');
  }

  lemma BracketedPiece(name: string, ts: seq<Token>)
    requires ValidPiece(Bracketed(name))
    ensures Run(Idle(ts), Print(Bracketed(name))) == After(Bracketed(name), ts)
  {
    var s := Idle(ts);
    RunBetween(s, "[", name, "]");
    RunOne(s, '[');
    BracketRun(s.(mode := Bracket), name);
    RunOne(s.(mode := Bracket, quoted := Capped("", name)), ']');
  }

  lemma LineNotePiece(text: string, end: string, ts: seq<Token>)
    requires ValidPiece(LineNote(text, end))
    ensures Run(Idle(ts), Print(LineNote(text, end))) == After(LineNote(text, end), ts)
  {
    var s := Idle(ts);
    RunBetween(s, "--", text, end);
    CommentModes(ts);
    LineRun(s.(mode := LineComment), text);
    RunOne(s.(mode := LineComment), '\n');
    RunOne(s.(mode := LineComment), '\r');
  }

  lemma BlockNotePiece(text: string, ts: seq<Token>)
    requires ValidPiece(BlockNote(text))
    ensures Run(Idle(ts), Print(BlockNote(text))) == Idle(ts)
  {
    var s := Idle(ts);
    RunBetween(s, "/*", text, "*/");
    CommentModes(ts);
    BlockRun(s.(mode := BlockComment), text);
    RunTwo(Run(s.(mode := BlockComment), text), '*', '/');
  }

  /** The characters of one piece lead to the state before its end. */
  lemma PieceRun(p: Piece, ts: seq<Token>)
    requires ValidPiece(p)
    ensures Run(Idle(ts), Print(p)) == After(p, ts)
  {
    match p
    case Plain(word) => WordRun(Idle(ts), word);
    case Literal(content) => LiteralPiece(content, ts);
    case DoubleQuoted(name) => DoubleQuotedPiece(name, ts);
    case Backticked(name) => BacktickedPiece(name, ts);
    case Bracketed(name) => BracketedPiece(name, ts);
    case Punct(c) => RunOne(Idle(ts), c);
    case Space(c) => RunOne(Idle(ts), c);
    case LineNote(text, end) => LineNotePiece(text, end, ts);
    case BlockNote(text) => BlockNotePiece(text, ts);
  }

  /** The next character, or the end, completes the piece and is read as from between tokens. */
  lemma {:induction false} PieceEnds(p: Piece, ts: seq<Token>, rest: string)
    requires ValidPiece(p) && Separated(p, rest)
    ensures End(Run(After(p, ts), rest)) == End(Run(Idle(ts + Tokens(p)), rest))
  {
    if p.Plain? {
      CappedNonempty(p.word);
    }
    assert ts + [] == ts;
    if rest != "" {
      assert Step(After(p, ts), rest[0]) == Step(Idle(ts + Tokens(p)), rest[0]);
    }
  }

  lemma {:induction false} CappedNonempty(word: string)
    requires word != ""
    ensures Capped("", word) != ""
  {
    assert AppendCapped("", word[0]) == [word[0]];
    CappedGrows([word[0]], word[1..]);
  }

  lemma {:induction false} CappedGrows(prefix: string, s: string)
    ensures |Capped(prefix, s)| >= |prefix|
    decreases |s|
  {
    if s != "" {
      CappedGrows(AppendCapped(prefix, s[0]), s[1..]);
    }
  }

  lemma {:induction false} PieceRead(p: Piece, ts: seq<Token>, rest: string)
    requires ValidPiece(p) && Separated(p, rest)
    ensures End(Run(Idle(ts), Print(p) + rest)) == End(Run(Idle(ts + Tokens(p)), rest))
  {
    RunConcat(Idle(ts), Print(p), rest);
    PieceRun(p, ts);
    PieceEnds(p, ts, rest);
  }

  /** Every text printed from separated pieces lexes to exactly the tokens of the pieces. */
  lemma {:induction false} PrintedLexes(ts: seq<Token>, ps: seq<Piece>)
    requires ValidPieces(ps)
    ensures End(Run(Idle(ts), PrintAll(ps))) == Success(ts + AllTokens(ps))
    decreases |ps|
  {
    if ps == [] {
      assert ts + [] == ts;
    } else {
      var p, more := ps[0], ps[1..];
      PieceRead(p, ts, PrintAll(more));
      PrintedLexes(ts + Tokens(p), more);
      Regroup(ts, p, more);
      PrintAllCons(ps);
    }
  }

  lemma {:induction false} PrintAllCons(ps: seq<Piece>)
    requires ps != []
    ensures PrintAll(ps) == Print(ps[0]) + PrintAll(ps[1..])
    ensures AllTokens(ps) == Tokens(ps[0]) + AllTokens(ps[1..])
  {
  }

  lemma {:induction false} Regroup(ts: seq<Token>, p: Piece, more: seq<Piece>)
    ensures ts + Tokens(p) + AllTokens(more) == ts + (Tokens(p) + AllTokens(more))
  {
  }

  // ----- Every text that lexes was printed -----

  lemma {:induction false} WordSplits(text: string) returns (word: string, rest: string)
    ensures text == word + rest && (forall i | 0 <= i < |word| :: IsWordChar(word[i]))
    ensures rest != "" ==> !IsWordChar(rest[0])
  {
    if text == "" || !IsWordChar(text[0]) {
      word, rest := "", text;
    } else {
      word, rest := WordSplits(text[1..]);
      word := [text[0]] + word;
    }
  }

  predicate InQuotes(s: Scan, q: char) {
    || (s.mode == SingleQuote && q == '\'')
    || (s.mode == DoubleQuote && q == '"')
    || (s.mode == Backtick && q == '`')
  }

  lemma QuoteSteps(s: Scan, q: char, c: char)
    requires InQuotes(s, q)
    ensures if c == q then InQuotes(Step(Step(s, q), q), q) else InQuotes(Step(s, c), q)
  {
  }

  /** A quotation that ends is some content with its quotes doubled. */
  lemma {:induction false} QuotesSplit(s: Scan, q: char, text: string) returns (content: string, rest: string)
    requires InQuotes(s, q) && End(Run(s, text)).Success?
    ensures text == Doubled(content, q) + [q] + rest && (rest != "" ==> rest[0] != q)
    decreases |text|
  {
    var c := text[0];
    QuoteSteps(s, q, c);
    if c == q && (|text| == 1 || text[1] != q) {
      content, rest := "", text[1..];
    } else {
      var n := if c == q then 2 else 1;
      assert text[1..][n - 1..] == text[n..];
      content, rest := QuotesSplit(if c == q then Step(Step(s, q), q) else Step(s, c), q, text[n..]);
      DoubledCons(c, content, q);
      Regrouped(if c == q then [q, q] else [c], Doubled(content, q), [q], rest);
      assert text == (if c == q then [q, q] else [c]) + text[n..];
      content := [c] + content;
    }
  }

  lemma Regrouped(a: string, b: string, c: string, d: string)
    ensures a + (b + c + d) == a + b + c + d
  {
  }

  lemma {:induction false} DoubledCons(c: char, s: string, q: char)
    ensures Doubled([c] + s, q) == (if c == q then [q, q] else [c]) + Doubled(s, q)
  {
    assert ([c] + s)[1..] == s;
  }

  lemma {:induction false} BracketSplits(s: Scan, text: string) returns (name: string, rest: string)
    requires s.mode == Bracket && End(Run(s, text)).Success?
    ensures text == name + "]" + rest && ']' !in name
    decreases |text|
  {
    if text[0] == ']' {
      name, rest := "", text[1..];
    } else {
      name, rest := BracketSplits(Step(s, text[0]), text[1..]);
      name := [text[0]] + name;
    }
  }

  lemma {:induction false} LineSplits(text: string) returns (note: string, end: string, rest: string)
    ensures text == note + end + rest && ValidPiece(LineNote(note, end)) && Separated(LineNote(note, end), rest)
  {
    if text == "" {
      note, end, rest := "", "", "";
    } else if text[0] == '\n' || text[0] == '\r' {
      note, end, rest := "", [text[0]], text[1..];
    } else {
      note, end, rest := LineSplits(text[1..]);
      note := [text[0]] + note;
    }
  }

  /** The first end of a block comment. */
  lemma {:induction false} BlockSplits(text: string) returns (note: string, rest: string)
    requires !NoCommentEnd(text)
    ensures text == note + "*/" + rest && NoCommentEnd(note)
  {
    if text[0] == '*' && text[1] == '/' {
      note, rest := "", text[2..];
    } else {
      var i :| 0 < i < |text| && text[i - 1] == '*' && text[i] == '/';
      assert text[1..][i - 2] == '*' && text[1..][i - 1] == '/';
      note, rest := BlockSplits(text[1..]);
      ConsKeepsOpen(text[0], note, rest);
      note := [text[0]] + note;
    }
  }

  lemma ConsKeepsOpen(c: char, note: string, rest: string)
    requires NoCommentEnd(note) && !(c == '*' && (note + "*/" + rest)[0] == '/')
    ensures NoCommentEnd([c] + note)
  {
    forall i | 0 < i < |note| + 1
      ensures !(([c] + note)[i - 1] == '*' && ([c] + note)[i] == '/')
    {
      assert i > 1 ==> !(note[i - 2] == '*' && note[i - 1] == '/');
    }
  }

  lemma QuotedPiece(q: char, text: string, ts: seq<Token>) returns (p: Piece, rest: string)
    requires q in {'\'', '"', '`'} && text != "" && text[0] == q && End(Run(Idle(ts), text)).Success?
    ensures ValidPiece(p) && text == Print(p) + rest && Separated(p, rest)
  {
    var content;
    QuoteModes(ts, "");
    content, rest := QuotesSplit(Step(Idle(ts), q), q, text[1..]);
    p := if q == '\'' then Literal(content) else if q == '"' then DoubleQuoted(content) else Backticked(content);
    Enclosed(text, q, Doubled(content, q), rest);
  }

  lemma Enclosed(text: string, q: char, content: string, rest: string)
    requires text != "" && text[0] == q && text[1..] == content + [q] + rest
    ensures text == [q] + content + [q] + rest
  {
  }

  lemma CommentPiece(text: string, ts: seq<Token>) returns (p: Piece, rest: string)
    requires |text| >= 2 && text[..2] in {"--", "/*"} && End(Run(Idle(ts), text)).Success?
    ensures ValidPiece(p) && text == Print(p) + rest && Separated(p, rest)
  {
    assert text == text[..2] + text[2..];
    if text[0] == '-' {
      var note, end;
      note, end, rest := LineSplits(text[2..]);
      p := LineNote(note, end);
    } else {
      BlockEnds(text[2..], ts);
      var note;
      note, rest := BlockSplits(text[2..]);
      p := BlockNote(note);
    }
  }

  lemma {:induction false} BlockEnds(left: string, ts: seq<Token>)
    requires End(Run(Idle(ts), "/*" + left)).Success?
    ensures !NoCommentEnd(left)
  {
    RunConcat(Idle(ts), "/*", left);
    CommentModes(ts);
    if NoCommentEnd(left) {
      NeverEnds(Idle(ts).(mode := BlockComment), left);
    }
  }

  lemma {:induction false} NeverEnds(s: Scan, text: string)
    requires s.mode == BlockComment && NoCommentEnd(text)
    ensures End(Run(s, text)).InvalidSqlStream?
  {
    BlockRun(s, text);
  }

  /** The first piece of a text that lexes. */
  lemma FirstPiece(text: string, ts: seq<Token>) returns (p: Piece, rest: string)
    requires text != "" && End(Run(Idle(ts), text)).Success?
    ensures ValidPiece(p) && text == Print(p) + rest && Separated(p, rest)
  {
    var c := text[0];
    assert text == [c] + text[1..];
    if IsWordChar(c) {
      var word;
      word, rest := WordSplits(text);
      p := Plain(word);
    } else if c in {'\'', '"', '`'} {
      p, rest := QuotedPiece(c, text, ts);
    } else if c == '[' {
      var name;
      name, rest := BracketSplits(Step(Idle(ts), c), text[1..]);
      p := Bracketed(name);
    } else if |text| >= 2 && text[..2] in {"--", "/*"} {
      p, rest := CommentPiece(text, ts);
    } else {
      assert |text| >= 2 ==> text[..2] == [c, text[1]];
      p, rest := if IsSpace(c) then Space(c) else Punct(c), text[1..];
    }
  }

  /** Every text that lexes is printed from separated pieces. */
  lemma {:induction false} LexedIsPrinted(text: string, ts: seq<Token>) returns (ps: seq<Piece>)
    requires End(Run(Idle(ts), text)).Success?
    ensures ValidPieces(ps) && PrintAll(ps) == text
    decreases |text|
  {
    if text == "" {
      ps := [];
    } else {
      var p, rest := FirstPiece(text, ts);
      PieceRead(p, ts, rest);
      var more := LexedIsPrinted(rest, ts + Tokens(p));
      ps := [p] + more;
      assert ps[1..] == more;
    }
  }

  /** A text lexes exactly if it is printed from separated pieces: every quote and block comment in it ends. */
  lemma {:induction false} LexesExactly(text: string)
    ensures End(Run(Idle([]), text)).Success? <==> exists ps :: ValidPieces(ps) && PrintAll(ps) == text
  {
    if End(Run(Idle([]), text)).Success? {
      var ps := LexedIsPrinted(text, []);
    }
    forall ps | ValidPieces(ps) && PrintAll(ps) == text
      ensures End(Run(Idle([]), text)).Success?
    {
      PrintedLexes([], ps);
    }
  }
}
