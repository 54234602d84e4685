/**
 Database dumps as statements, and what the inventory of their text is proved to be. Every list of tokens is a dump
 of CREATE TABLE, INSERT and other statements, well-formed or not; the scan of its text, in any lexical layout and
 any chunking, computes the tally of the statements.
 */
module SqlDump {
  import opened Wrappers
  import opened SqlLexer
  import opened SqlInterpreter

  /** What follows the column list of an INSERT: rows and a clause, a query, the end, or a parenthesis too many. */
  datatype Source =
    | Rows(values: Token, rows: seq<seq<Token>>, clause: seq<Token>)
    | Query(select: Token, rest: seq<Token>)
    | Nothing
    | Unbalanced(rest: seq<Token>)

  /** A statement as tokens; `guard` repeats IF NOT EXISTS, `prefix` is what stands before INTO. */
  datatype Statement =
    | CreateTable(create: Token, table: Token, guard: seq<Token>, name: Token, rest: seq<Token>)
    | Insert(insert: Token, prefix: seq<Token>, into: Token, name: Token, header: seq<Token>, source: Source)
    | Other(tokens: seq<Token>)

  predicate OneStatement(ts: seq<Token>) {
    SEMICOLON !in ts
  }

  /** The parenthesis depth after the tokens of a column list; None if it is not one. */
  function HeaderDepth(p: Profile, ts: seq<Token>, depth: nat): Option<nat>
    decreases |ts|
  {
    if ts == [] then Some(depth)
    else if ts[0] == SEMICOLON then None
    else if ts[0] == OPEN then HeaderDepth(p, ts[1..], depth + 1)
    else if ts[0] == CLOSE then if depth == 0 then None else HeaderDepth(p, ts[1..], depth - 1)
    else if depth == 0 && (IsWord(p, ts[0], "values") || IsWord(p, ts[0], "select")) then None
    else HeaderDepth(p, ts[1..], depth)
  }

  /** The parenthesis depth after tokens inside a row; None if they end the row or the statement. */
  function RowDepth(ts: seq<Token>, depth: nat): Option<nat>
    decreases |ts|
  {
    if ts == [] then Some(depth)
    else if ts[0] == SEMICOLON then None
    else if ts[0] == OPEN then RowDepth(ts[1..], depth + 1)
    else if ts[0] == CLOSE then if depth <= 1 then None else RowDepth(ts[1..], depth - 1)
    else RowDepth(ts[1..], depth)
  }

  /** The parenthesis depth after a clause; None if it closes one that it did not open. */
  function ClauseDepth(ts: seq<Token>, depth: nat): Option<nat>
    decreases |ts|
  {
    if ts == [] then Some(depth)
    else if ts[0] == OPEN then ClauseDepth(ts[1..], depth + 1)
    else if ts[0] == CLOSE then if depth == 0 then None else ClauseDepth(ts[1..], depth - 1)
    else ClauseDepth(ts[1..], depth)
  }

  /** The outermost groups that a clause opens, up to a parenthesis too many. */
  function Groups(ts: seq<Token>, depth: nat): nat
    decreases |ts|
  {
    if ts == [] then 0
    else if ts[0] == OPEN then Groups(ts[1..], depth + 1) + if depth == 0 then 1 else 0
    else if ts[0] == CLOSE then if depth == 0 then 0 else Groups(ts[1..], depth - 1)
    else Groups(ts[1..], depth)
  }

  /** IF NOT EXISTS, any number of times. */
  predicate Guards(p: Profile, ts: seq<Token>) {
    ts == [] ||
    (&& |ts| >= 3 && IsWord(p, ts[0], "if") && IsWord(p, ts[1], "not") && IsWord(p, ts[2], "exists")
     && Guards(p, ts[3..]))
  }

  /** What follows CREATE TABLE has no table name where one is expected. */
  predicate NoName(p: Profile, ts: seq<Token>) {
    || ts == []
    || !IsName(ts[0])
    || (&& IsWord(p, ts[0], "if")
        && (|ts| < 3 || !IsWord(p, ts[1], "not") || !IsWord(p, ts[2], "exists") || NoName(p, ts[3..])))
  }

  /** The first INTO stands at this position, among as many tokens as are searched for it. */
  predicate IntoAt(p: Profile, ts: seq<Token>, i: nat, limit: nat) {
    i < |ts| && i < limit && IsWord(p, ts[i], "into") && forall j | 0 <= j < i :: !IsWord(p, ts[j], "into")
  }

  /** What follows INSERT names no table. */
  predicate NoTarget(p: Profile, ts: seq<Token>, limit: nat) {
    forall i | 0 <= i < |ts| && IntoAt(p, ts, i, limit) :: i + 1 == |ts| || !IsName(ts[i + 1])
  }

  predicate ValidSource(p: Profile, source: Source) {
    match source
    case Rows(values, rows, clause) =>
      && IsWord(p, values, "values") && OneStatement(clause)
      && forall row | row in rows :: RowDepth(row, 1) == Some(1)
    case Query(select, rest) => IsWord(p, select, "select") && OneStatement(rest)
    case Nothing => true
    case Unbalanced(rest) => OneStatement(rest)
  }

  predicate ValidStatement(p: Profile, st: Statement) {
    match st
    case CreateTable(create, table, guard, name, rest) =>
      && IsWord(p, create, "create") && IsWord(p, table, "table") && Guards(p, guard)
      && IsName(name) && !IsWord(p, name, "if") && OneStatement(rest)
    case Insert(insert, prefix, into, name, header, source) =>
      && IsWord(p, insert, "insert") && IsWord(p, into, "into") && IsName(name)
      && |prefix| <= 4 && OneStatement(prefix) && (forall t | t in prefix :: !IsWord(p, t, "into"))
      && HeaderDepth(p, header, 0).Some? && (HeaderDepth(p, header, 0).value == 0 || source == Nothing)
      && ValidSource(p, source)
    case Other(tokens) =>
      && OneStatement(tokens)
      && (tokens != [] && IsWord(p, tokens[0], "insert") ==> NoTarget(p, tokens[1..], 5))
      && (|tokens| > 1 && IsWord(p, tokens[0], "create") && IsWord(p, tokens[1], "table") ==> NoName(p, tokens[2..]))
  }

  function RowsTokens(rows: seq<seq<Token>>): seq<Token> {
    if rows == [] then []
    else
      var n := |rows| - 1;
      RowsTokens(rows[..n]) + ((if n == 0 then [] else [COMMA]) + ([OPEN] + rows[n] + [CLOSE]))
  }

  function SourceTokens(source: Source): seq<Token> {
    match source
    case Rows(values, rows, clause) => [values] + RowsTokens(rows) + clause
    case Query(select, rest) => [select] + rest
    case Nothing => []
    case Unbalanced(rest) => [CLOSE] + rest
  }

  function StatementTokens(st: Statement): seq<Token> {
    match st
    case CreateTable(create, table, guard, name, rest) => [create, table] + guard + [name] + rest
    case Insert(insert, prefix, into, name, header, source) =>
      [insert] + prefix + [into, name] + header + SourceTokens(source)
    case Other(tokens) => tokens
  }

  /** Every statement but the last is terminated. */
  function DumpTokens(dump: seq<Statement>, lastTerminated: bool): seq<Token> {
    if dump == [] then []
    else if |dump| == 1 then StatementTokens(dump[0]) + if lastTerminated then [SEMICOLON] else []
    else StatementTokens(dump[0]) + [SEMICOLON] + DumpTokens(dump[1..], lastTerminated)
  }

  // ----- The reference: what a dump says -----

  function Key(p: Profile, st: Statement): string
    requires !st.Other?
  {
    p.lower(st.name.value)
  }

  function CountOf(tally: Tally, key: string): nat {
    if key in tally.counts then tally.counts[key] else 0
  }

  /** What the scan counts as rows: those printed, and the outermost groups of the clause after them. */
  function RowCount(source: Source): nat {
    if source.Rows? then |source.rows| + Groups(source.clause, 0) else 0
  }

  /** The statement ends outside all parentheses, after at least one group. */
  predicate Countable(source: Source) {
    source.Rows? && ClauseDepth(source.clause, 0) == Some(0) && RowCount(source) > 0
  }

  function RecordRows(p: Profile, tally: Tally, key: string, source: Source): Result<Tally> {
    if RowCount(source) > 0x1F_FFFF_FFFF_FFFF then Err(CountOverflow)
    else if key !in p.counted then Ok(tally)
    else if !Countable(source) then Err(UnsupportedInsert)
    else
      var next := CountOf(tally, key) + RowCount(source);
      if next > 0x1F_FFFF_FFFF_FFFF then Err(CountOverflow)
      else Ok(tally.(counts := tally.counts[key := next], inserted := tally.inserted + {key}))
  }

  /** One statement's effect on the tally. */
  function Record(p: Profile, tally: Tally, st: Statement): Result<Tally> {
    match st
    case CreateTable(_, _, _, name, _) =>
      var key := Key(p, st);
      if key !in p.counted then Ok(tally)
      else if key in tally.created then Err(DuplicateTableDefinition)
      else Ok(tally.(created := tally.created + {key}, counts := tally.counts[key := 0]))
    case Insert(_, _, _, _, _, source) => RecordRows(p, tally, Key(p, st), source)
    case Other(_) => Ok(tally)
  }

  function RecordAll(p: Profile, tally: Tally, dump: seq<Statement>): Result<Tally>
    decreases |dump|
  {
    if dump == [] then Ok(tally)
    else
      var next := Record(p, tally, dump[0]);
      if next.Ok? then RecordAll(p, next.value, dump[1..]) else next
  }

  const EMPTY := Tally({}, {}, map[])

  function Inventory(p: Profile, dump: seq<Statement>): Result<map<string, nat>> {
    var tally := RecordAll(p, EMPTY, dump);
    if tally.Err? then Err(tally.error)
    else if !(tally.value.inserted <= tally.value.created) then Err(TableDefinitionMissing)
    else Ok(tally.value.counts)
  }

  function Started(r: Result<Tally>): Result<Interp> {
    if r.Ok? then Ok(Fresh(r.value)) else Err(r.error)
  }

  // ----- Tokens of one statement -----

  lemma {:induction false} IgnoredRun(p: Profile, s: Interp, ts: seq<Token>)
    requires (s.phase == Ignored || s.phase == CreateDone) && OneStatement(ts)
    ensures Interpret(p, s, ts) == Ok(s)
    decreases |ts|
  {
    if ts != [] {
      assert ts[0] in ts;
      IgnoredRun(p, s, ts[1..]);
    }
  }

  lemma {:induction false} PrefixRun(p: Profile, s: Interp, ts: seq<Token>)
    requires s.phase == InsertSeekInto && s.prefixTokens + |ts| <= 4 && OneStatement(ts)
    requires forall t | t in ts :: !IsWord(p, t, "into")
    ensures Interpret(p, s, ts) == Ok(s.(prefixTokens := s.prefixTokens + |ts|))
    decreases |ts|
  {
    if ts != [] {
      assert ts[0] in ts;
      PrefixRun(p, s.(prefixTokens := s.prefixTokens + 1), ts[1..]);
    }
  }

  lemma {:induction false} HeaderRun(p: Profile, s: Interp, ts: seq<Token>)
    requires s.phase == InsertSeekValues && HeaderDepth(p, ts, s.headerDepth).Some?
    ensures Interpret(p, s, ts) == Ok(s.(headerDepth := HeaderDepth(p, ts, s.headerDepth).value))
    decreases |ts|
  {
    if ts != [] {
      HeaderRun(p, TokenStep(p, s, ts[0]).value, ts[1..]);
    }
  }

  lemma {:induction false} RowRun(p: Profile, s: Interp, ts: seq<Token>)
    requires s.phase == InsertValues && s.valueDepth >= 1 && RowDepth(ts, s.valueDepth).Some?
    ensures Interpret(p, s, ts) == Ok(s.(valueDepth := RowDepth(ts, s.valueDepth).value))
    decreases |ts|
  {
    if ts != [] {
      RowRun(p, TokenStep(p, s, ts[0]).value, ts[1..]);
    }
  }

  function Counted(s: Interp, n: nat): Result<Interp> {
    if s.rowCount + n > SAFE_MAX then Err(CountOverflow) else Ok(s.(rowCount := s.rowCount + n))
  }

  /** One parenthesised row at depth zero counts one. */
  lemma {:induction false} OneRow(p: Profile, s: Interp, row: seq<Token>)
    requires s.phase == InsertValues && s.valueDepth == 0 && RowDepth(row, 1) == Some(1)
    ensures Interpret(p, s, [OPEN] + row + [CLOSE]) == Counted(s, 1)
  {
    InterpretConcat(p, s, [OPEN] + row, [CLOSE]);
    InterpretConcat(p, s, [OPEN], row);
    InterpretOne(p, s, OPEN);
    if s.rowCount + 1 <= SAFE_MAX {
      var inside := s.(rowCount := s.rowCount + 1, valueDepth := 1);
      RowRun(p, inside, row);
      InterpretOne(p, inside, CLOSE);
    }
  }

  lemma CommaRun(p: Profile, s: Interp, n: nat, row: seq<Token>)
    requires s.phase == InsertValues && s.valueDepth == 0 && RowDepth(row, 1) == Some(1)
    ensures Interpret(p, s, (if n == 0 then [] else [COMMA]) + ([OPEN] + row + [CLOSE])) == Counted(s, 1)
  {
    if n > 0 {
      Next(p, s, COMMA, [OPEN] + row + [CLOSE]);
    } else {
      assert [] + ([OPEN] + row + [CLOSE]) == [OPEN] + row + [CLOSE];
    }
    OneRow(p, s, row);
  }

  lemma {:induction false} RowsRun(p: Profile, s: Interp, rows: seq<seq<Token>>)
    requires s.phase == InsertValues && s.valueDepth == 0 && s.rowCount == 0
    requires forall row | row in rows :: RowDepth(row, 1) == Some(1)
    ensures Interpret(p, s, RowsTokens(rows)) == Counted(s, |rows|)
    decreases |rows|
  {
    if rows != [] {
      var n := |rows| - 1;
      assert rows[n] in rows;
      RowsRun(p, s, rows[..n]);
      InterpretConcat(p, s, RowsTokens(rows[..n]), (if n == 0 then [] else [COMMA]) + ([OPEN] + rows[n] + [CLOSE]));
      if n <= SAFE_MAX {
        CommaRun(p, s.(rowCount := n), n, rows[n]);
      }
    }
  }

  /** Every group that a clause opens counts like a row; a parenthesis too many ends the counting. */
  lemma {:induction false} ClauseRun(p: Profile, s: Interp, ts: seq<Token>)
    requires s.phase == InsertValues && OneStatement(ts) && s.rowCount <= SAFE_MAX
    ensures Interpret(p, s, ts) ==
            Read(s, s.rowCount + Groups(ts, s.valueDepth), ClauseDepth(ts, s.valueDepth))
    decreases |ts|
  {
    if ts != [] {
      assert ts[0] in ts && OneStatement(ts[1..]);
      if ts[0] == CLOSE && s.valueDepth == 0 {
        IgnoredRun(p, s.(phase := Ignored), ts[1..]);
      } else if TokenStep(p, s, ts[0]).Ok? {
        ClauseRun(p, TokenStep(p, s, ts[0]).value, ts[1..]);
      }
    }
  }

  /** Reads one token, then the rest. */
  lemma {:induction false} Next(p: Profile, s: Interp, t: Token, ts: seq<Token>)
    ensures Interpret(p, s, [t] + ts) == Then(p, TokenStep(p, s, t), ts)
  {
    InterpretConcat(p, s, [t], ts);
    InterpretOne(p, s, t);
  }

  lemma {:induction false} GuardRun(p: Profile, s: Interp, guard: seq<Token>)
    requires s.phase == CreateAfterTable && Guards(p, guard)
    ensures Interpret(p, s, guard) == Ok(s)
    decreases |guard|
  {
    if guard != [] {
      OneGuard(p, s, guard);
      GuardRun(p, s, guard[3..]);
    }
  }

  /** The first token, and what the others lead to. */
  lemma {:induction false} First(p: Profile, s: Interp, ts: seq<Token>)
    requires ts != []
    ensures Interpret(p, s, ts) == Then(p, TokenStep(p, s, ts[0]), ts[1..])
  {
  }

  lemma {:induction false} OneGuard(p: Profile, s: Interp, ts: seq<Token>)
    requires s.phase == CreateAfterTable && |ts| >= 3
    requires IsWord(p, ts[0], "if") && IsWord(p, ts[1], "not") && IsWord(p, ts[2], "exists")
    ensures Interpret(p, s, ts) == Interpret(p, s, ts[3..])
  {
    First(p, s, ts);
    First(p, s.(phase := CreateAfterIf), ts[1..]);
    First(p, s.(phase := CreateAfterNot), ts[2..]);
    assert ts[1..][1..] == ts[2..] && ts[2..][1..] == ts[3..];
  }

  /** After a statement's own tokens, ending it gives the state that its effect on the tally starts. */
  ghost predicate Ends(p: Profile, r: Result<Interp>, expected: Result<Tally>) {
    && (r.Err? ==> expected == Err(r.error))
    && (r.Ok? ==> EndStatement(p, r.value) == Started(expected))
    && (r.Ok? && r.value.phase == Start ==>
          r.value.table == None && expected == Ok(r.value.tally) && r.value == Fresh(r.value.tally))
  }

  lemma {:induction false} CreateRuns(p: Profile, tally: Tally, st: Statement)
    requires st.CreateTable? && ValidStatement(p, st)
    ensures Ends(p, Interpret(p, Fresh(tally), StatementTokens(st)), Record(p, tally, st))
  {
    var s := Fresh(tally);
    assert StatementTokens(st) == [st.create] + ([st.table] + (st.guard + ([st.name] + st.rest)));
    Next(p, s, st.create, [st.table] + (st.guard + ([st.name] + st.rest)));
    Next(p, s.(phase := CreateAfterCreate), st.table, st.guard + ([st.name] + st.rest));
    var s2 := s.(phase := CreateAfterTable);
    InterpretConcat(p, s2, st.guard, [st.name] + st.rest);
    GuardRun(p, s2, st.guard);
    Next(p, s2, st.name, st.rest);
    var named := TokenStep(p, s2, st.name);
    if named.Ok? {
      IgnoredRun(p, named.value, st.rest);
    }
  }

  lemma {:induction false} InsertHeadRuns(p: Profile, tally: Tally, st: Statement)
    requires st.Insert? && ValidStatement(p, st)
    ensures Interpret(p, Fresh(tally), StatementTokens(st)) ==
            Interpret(p, Named(p, tally, st), SourceTokens(st.source))
  {
    var s := Fresh(tally);
    var tail := [st.into] + ([st.name] + (st.header + SourceTokens(st.source)));
    assert StatementTokens(st) == [st.insert] + (st.prefix + tail);
    Next(p, s, st.insert, st.prefix + tail);
    var s1 := s.(phase := InsertSeekInto);
    InterpretConcat(p, s1, st.prefix, tail);
    PrefixRun(p, s1, st.prefix);
    IntoRuns(p, s1.(prefixTokens := |st.prefix|), st);
  }

  /** After the column list of an INSERT. */
  function Named(p: Profile, tally: Tally, st: Statement): Interp
    requires st.Insert? && ValidStatement(p, st)
  {
    Interp(tally, InsertSeekValues, Some(Key(p, st)), HeaderDepth(p, st.header, 0).value, 0, 0, |st.prefix| + 1)
  }

  /** From the word before the name to the source of the rows. */
  lemma {:induction false} IntoRuns(p: Profile, s: Interp, st: Statement)
    requires st.Insert? && ValidStatement(p, st)
    requires s == Fresh(s.tally).(phase := InsertSeekInto, prefixTokens := |st.prefix|)
    ensures Interpret(p, s, [st.into] + ([st.name] + (st.header + SourceTokens(st.source)))) ==
            Interpret(p, Named(p, s.tally, st), SourceTokens(st.source))
  {
    var tail := st.header + SourceTokens(st.source);
    Next(p, s, st.into, [st.name] + tail);
    var named := s.(prefixTokens := |st.prefix| + 1, phase := InsertTable);
    Next(p, named, st.name, tail);
    var seeking := named.(table := Some(Key(p, st)), phase := InsertSeekValues);
    InterpretConcat(p, seeking, st.header, SourceTokens(st.source));
    HeaderRun(p, seeking, st.header);
  }

  /** After as many groups, at this depth, or after a parenthesis too many. */
  function Read(s: Interp, n: nat, depth: Option<nat>): Result<Interp> {
    if n > SAFE_MAX then Err(CountOverflow)
    else if depth.Some? then Ok(s.(rowCount := n, valueDepth := depth.value))
    else Ok(s.(rowCount := n, valueDepth := 0, phase := Ignored))
  }

  lemma {:induction false} ValuesRun(p: Profile, s: Interp, rows: seq<seq<Token>>, clause: seq<Token>)
    requires s.phase == InsertValues && s.valueDepth == 0 && s.rowCount == 0 && OneStatement(clause)
    requires forall row | row in rows :: RowDepth(row, 1) == Some(1)
    ensures Interpret(p, s, RowsTokens(rows) + clause) == Read(s, |rows| + Groups(clause, 0), ClauseDepth(clause, 0))
  {
    InterpretConcat(p, s, RowsTokens(rows), clause);
    RowsRun(p, s, rows);
    if |rows| <= SAFE_MAX {
      ClauseRun(p, s.(rowCount := |rows|), clause);
    }
  }

  lemma ReadEnds(p: Profile, s: Interp, source: Source)
    requires source.Rows? && s == Interp(s.tally, InsertValues, s.table, 0, 0, 0, s.prefixTokens) && s.table.Some?
    ensures Ends(p, Read(s, RowCount(source), ClauseDepth(source.clause, 0)),
                 RecordRows(p, s.tally, s.table.value, source))
  {
  }

  lemma ValuesStep(p: Profile, s: Interp, t: Token)
    requires s.phase == InsertSeekValues && s.headerDepth == 0 && IsWord(p, t, "values")
    ensures TokenStep(p, s, t) == Ok(s.(phase := InsertValues))
  {
  }

  lemma {:induction false} RowsEnd(p: Profile, s: Interp, source: Source)
    requires source.Rows? && ValidSource(p, source) && s.table.Some?
    requires s == Interp(s.tally, InsertSeekValues, s.table, 0, 0, 0, s.prefixTokens)
    ensures Ends(p, Interpret(p, s, SourceTokens(source)), RecordRows(p, s.tally, s.table.value, source))
  {
    var reading := s.(phase := InsertValues);
    var body := RowsTokens(source.rows) + source.clause;
    assert SourceTokens(source) == [source.values] + body;
    Next(p, s, source.values, body);
    ValuesStep(p, s, source.values);
    ValuesRun(p, reading, source.rows, source.clause);
    ReadEnds(p, reading, source);
  }

  lemma {:induction false} NoRowsEnd(p: Profile, s: Interp, source: Source)
    requires !source.Rows? && ValidSource(p, source) && s.table.Some?
    requires s == Interp(s.tally, InsertSeekValues, s.table, s.headerDepth, 0, 0, s.prefixTokens)
    requires s.headerDepth == 0 || source == Nothing
    ensures Ends(p, Interpret(p, s, SourceTokens(source)), RecordRows(p, s.tally, s.table.value, source))
  {
    match source
    case Query(select, rest) =>
      Next(p, s, select, rest);
      IgnoredRun(p, s.(phase := Ignored), rest);
    case Unbalanced(rest) =>
      Next(p, s, CLOSE, rest);
      IgnoredRun(p, s.(phase := Ignored), rest);
    case Nothing =>
  }

  lemma {:induction false} InsertRuns(p: Profile, tally: Tally, st: Statement)
    requires st.Insert? && ValidStatement(p, st)
    ensures Ends(p, Interpret(p, Fresh(tally), StatementTokens(st)), Record(p, tally, st))
  {
    InsertHeadRuns(p, tally, st);
    if st.source.Rows? {
      RowsEnd(p, Named(p, tally, st), st.source);
    } else {
      NoRowsEnd(p, Named(p, tally, st), st.source);
    }
  }

  /** The statement has no effect on the tally, and its end none either. */
  predicate Idles(s: Interp, r: Result<Interp>) {
    r.Ok? && r.value.phase != Start && r.value.table == None && r.value.tally == s.tally
  }

  lemma {:induction false} NoNameRuns(p: Profile, s: Interp, ts: seq<Token>)
    requires s.phase == CreateAfterTable && s.table == None && NoName(p, ts) && OneStatement(ts)
    ensures Idles(s, Interpret(p, s, ts))
    decreases |ts|
  {
    if ts != [] {
      assert ts[0] in ts;
      if !IsName(ts[0]) {
        IgnoredRun(p, s.(phase := Ignored), ts[1..]);
      } else if |ts| >= 3 && IsWord(p, ts[1], "not") && IsWord(p, ts[2], "exists") {
        OneGuard(p, s, ts);
        NoNameRuns(p, s, ts[3..]);
      } else {
        BrokenGuard(p, s, ts);
      }
    }
  }

  lemma {:induction false} BrokenGuard(p: Profile, s: Interp, ts: seq<Token>)
    requires s.phase == CreateAfterTable && s.table == None && OneStatement(ts)
    requires ts != [] && IsWord(p, ts[0], "if")
    requires |ts| < 3 || !IsWord(p, ts[1], "not") || !IsWord(p, ts[2], "exists")
    ensures Idles(s, Interpret(p, s, ts))
  {
    var s1 := s.(phase := CreateAfterIf);
    assert ts[0] in ts;
    First(p, s, ts);
    if |ts| > 1 {
      assert ts[1] in ts && ts[1..][1..] == ts[2..];
      First(p, s1, ts[1..]);
      if IsWord(p, ts[1], "not") {
        BrokenNot(p, s.(phase := CreateAfterNot), ts[2..]);
      } else {
        IgnoredRun(p, s.(phase := Ignored), ts[2..]);
      }
    }
  }

  lemma {:induction false} BrokenNot(p: Profile, s: Interp, ts: seq<Token>)
    requires s.phase == CreateAfterNot && s.table == None && OneStatement(ts)
    requires ts == [] || !IsWord(p, ts[0], "exists")
    ensures Idles(s, Interpret(p, s, ts))
  {
    if ts != [] {
      assert ts[0] in ts;
      First(p, s, ts);
      IgnoredRun(p, s.(phase := Ignored), ts[1..]);
    }
  }

  /** The search for INTO goes on, ends at one that no name follows, or is given up. */
  lemma {:induction false} NoTargetRuns(p: Profile, s: Interp, ts: seq<Token>)
    requires s.phase == InsertSeekInto && s.table == None && s.prefixTokens <= 4 && OneStatement(ts)
    requires NoTarget(p, ts, 5 - s.prefixTokens)
    ensures Idles(s, Interpret(p, s, ts))
    decreases |ts|
  {
    if ts != [] {
      assert ts[0] in ts;
      First(p, s, ts);
      var next := TokenStep(p, s, ts[0]).value;
      if IsWord(p, ts[0], "into") {
        assert IntoAt(p, ts, 0, 5 - s.prefixTokens);
        NoTargetName(p, next, ts[1..]);
      } else if s.prefixTokens == 4 {
        IgnoredRun(p, next, ts[1..]);
      } else {
        NoTargetRest(p, ts, ts[1..], 5 - s.prefixTokens, 4 - s.prefixTokens);
        NoTargetRuns(p, next, ts[1..]);
      }
    }
  }

  lemma NoTargetRest(p: Profile, ts: seq<Token>, rest: seq<Token>, limit: nat, less: nat)
    requires ts != [] && rest == ts[1..] && !IsWord(p, ts[0], "into")
    requires limit == less + 1 && NoTarget(p, ts, limit)
    ensures NoTarget(p, rest, less)
  {
    forall i | 0 <= i < |rest| && IntoAt(p, rest, i, less)
      ensures i + 1 == |rest| || !IsName(rest[i + 1])
    {
      assert forall j | 0 < j <= i :: ts[j] == rest[j - 1];
      assert IntoAt(p, ts, i + 1, limit);
    }
  }

  lemma {:induction false} NoTargetName(p: Profile, s: Interp, ts: seq<Token>)
    requires s.phase == InsertTable && s.table == None && OneStatement(ts) && (ts == [] || !IsName(ts[0]))
    ensures Idles(s, Interpret(p, s, ts))
  {
    if ts != [] {
      assert ts[0] in ts;
      First(p, s, ts);
      IgnoredRun(p, s.(phase := Ignored), ts[1..]);
    }
  }

  lemma {:induction false} OtherRuns(p: Profile, tally: Tally, st: Statement)
    requires st.Other? && ValidStatement(p, st)
    ensures Ends(p, Interpret(p, Fresh(tally), StatementTokens(st)), Record(p, tally, st))
  {
    var ts := st.tokens;
    var s := Fresh(tally);
    if ts != [] {
      assert ts[0] in ts;
      if IsWord(p, ts[0], "insert") {
        NoTargetRuns(p, s.(phase := InsertSeekInto), ts[1..]);
      } else if IsWord(p, ts[0], "create") {
        if |ts| > 1 {
          assert ts[1] in ts && ts[1..][1..] == ts[2..];
          if IsWord(p, ts[1], "table") {
            NoNameRuns(p, s.(phase := CreateAfterTable), ts[2..]);
          } else {
            IgnoredRun(p, s.(phase := Ignored), ts[2..]);
          }
        }
      } else {
        IgnoredRun(p, s.(phase := Ignored), ts[1..]);
      }
    }
  }

  lemma {:induction false} StatementRuns(p: Profile, tally: Tally, st: Statement)
    requires ValidStatement(p, st)
    ensures Ends(p, Interpret(p, Fresh(tally), StatementTokens(st)), Record(p, tally, st))
  {
    match st
    case CreateTable(_, _, _, _, _) => CreateRuns(p, tally, st);
    case Insert(_, _, _, _, _, _) => InsertRuns(p, tally, st);
    case Other(_) => OtherRuns(p, tally, st);
  }

  lemma {:induction false} TerminatedRuns(p: Profile, tally: Tally, st: Statement)
    requires ValidStatement(p, st)
    ensures Interpret(p, Fresh(tally), StatementTokens(st) + [SEMICOLON]) == Started(Record(p, tally, st))
  {
    StatementRuns(p, tally, st);
    InterpretConcat(p, Fresh(tally), StatementTokens(st), [SEMICOLON]);
    var r := Interpret(p, Fresh(tally), StatementTokens(st));
    if r.Ok? {
      InterpretOne(p, r.value, SEMICOLON);
    }
  }

  // ----- Whole dumps -----

  function FinishAll(p: Profile, r: Result<Interp>): Result<map<string, nat>> {
    if r.Ok? then Finish(p, r.value) else Err(r.error)
  }

  function Closed(r: Result<Tally>): Result<map<string, nat>> {
    if r.Err? then Err(r.error)
    else if !(r.value.inserted <= r.value.created) then Err(TableDefinitionMissing)
    else Ok(r.value.counts)
  }

  /** The interpreter computes the tally of the statements, whether or not the last one is terminated. */
  lemma {:induction false} DumpRuns(p: Profile, tally: Tally, dump: seq<Statement>, lastTerminated: bool)
    requires forall st | st in dump :: ValidStatement(p, st)
    ensures FinishAll(p, Interpret(p, Fresh(tally), DumpTokens(dump, lastTerminated))) ==
            Closed(RecordAll(p, tally, dump))
    decreases |dump|
  {
    if dump != [] {
      var st, more := dump[0], dump[1..];
      assert st in dump;
      TerminatedRuns(p, tally, st);
      var next := Record(p, tally, st);
      if |dump| == 1 {
        assert more == [];
        if !lastTerminated {
          StatementRuns(p, tally, st);
          assert StatementTokens(st) + [] == StatementTokens(st);
        }
      } else {
        InterpretConcat(p, Fresh(tally), StatementTokens(st) + [SEMICOLON], DumpTokens(more, lastTerminated));
        if next.Ok? {
          DumpRuns(p, next.value, more, lastTerminated);
        }
      }
    }
  }

  /** What scanning a whole text computes; the first error wins. */
  function Scanned(p: Profile, text: string): Result<map<string, nat>> {
    var s := Run(Idle([]), text);
    var r := Interpret(p, Fresh(EMPTY), s.tokens);
    if r.Err? then Err(r.error)
    else if End(s).InvalidSqlStream? then Err(InvalidStream)
    else FinishAll(p, Interpret(p, Fresh(EMPTY), End(s).value))
  }

  /** Ending the text only adds a token. */
  lemma EndAdds(s: Scan) returns (more: seq<Token>)
    requires End(s).Success?
    ensures End(s).value == s.tokens + more
  {
    more := End(s).value[|s.tokens|..];
    assert s.tokens + [] == s.tokens;
  }

  /**
   For every dump and every layout of its tokens into words, literals, quoted identifiers, spaces and comments,
   the inventory of the printed text is the tally of the statements.
   */
  lemma {:induction false} PrintedInventory(p: Profile, dump: seq<Statement>, lastTerminated: bool, pieces: seq<Piece>)
    requires forall st | st in dump :: ValidStatement(p, st)
    requires ValidPieces(pieces) && AllTokens(pieces) == DumpTokens(dump, lastTerminated)
    ensures Scanned(p, PrintAll(pieces)) == Inventory(p, dump)
  {
    PrintedLexes([], pieces);
    assert [] + AllTokens(pieces) == AllTokens(pieces);
    DumpRuns(p, EMPTY, dump, lastTerminated);
    var s := Run(Idle([]), PrintAll(pieces));
    var more := EndAdds(s);
    InterpretConcat(p, Fresh(EMPTY), s.tokens, more);
  }

  /** In terms of the names as they are written, when all have at most 256 code units. */
  lemma {:induction false} WrittenInventory(p: Profile, dump: seq<Statement>, lastTerminated: bool, pieces: seq<Piece>)
    requires forall st | st in dump :: ValidStatement(p, st)
    requires ValidPieces(pieces) && forall piece | piece in pieces :: FitName(piece)
    requires AllWritten(pieces) == DumpTokens(dump, lastTerminated)
    ensures Scanned(p, PrintAll(pieces)) == Inventory(p, dump)
  {
    FitNamesAreWritten(pieces);
    PrintedInventory(p, dump, lastTerminated, pieces);
  }

  // ----- Every text is a dump -----

  /** The guards after CREATE TABLE, and what follows them. */
  lemma {:induction false} GuardSplits(p: Profile, ts: seq<Token>) returns (guard: seq<Token>, rest: seq<Token>)
    ensures ts == guard + rest && Guards(p, guard)
    ensures NoName(p, ts) || (rest != [] && IsName(rest[0]) && !IsWord(p, rest[0], "if"))
    decreases |ts|
  {
    if |ts| >= 3 && IsWord(p, ts[0], "if") && IsWord(p, ts[1], "not") && IsWord(p, ts[2], "exists") {
      guard, rest := GuardSplits(p, ts[3..]);
      guard := ts[..3] + guard;
      assert guard[3..] == guard[3..];
      assert ts == ts[..3] + ts[3..];
    } else {
      guard, rest := [], ts;
    }
  }

  /** What follows the name of an INSERT, up to its source. */
  lemma {:induction false} HeaderSplits(p: Profile, ts: seq<Token>, depth: nat)
    returns (header: seq<Token>, source: Source)
    requires OneStatement(ts)
    ensures ts == header + SourceTokens(source) && ValidSource(p, source)
    ensures HeaderDepth(p, header, depth).Some?
    ensures HeaderDepth(p, header, depth).value == 0 || source == Nothing
    decreases |ts|
  {
    header := [];
    if ts == [] {
      source := Nothing;
      return;
    }
    assert ts[0] in ts && ts == [ts[0]] + ts[1..];
    if depth == 0 && ts[0] == CLOSE {
      source := Unbalanced(ts[1..]);
    } else if depth == 0 && IsWord(p, ts[0], "values") {
      source := Rows(ts[0], [], ts[1..]);
    } else if depth == 0 && IsWord(p, ts[0], "select") {
      source := Query(ts[0], ts[1..]);
    } else {
      var next := if ts[0] == OPEN then depth + 1 else if ts[0] == CLOSE then depth - 1 else depth;
      header, source := HeaderSplits(p, ts[1..], next);
      HeaderCons(p, ts[0], header, depth);
      header := [ts[0]] + header;
    }
  }

  lemma {:induction false} HeaderCons(p: Profile, t: Token, header: seq<Token>, depth: nat)
    requires t != SEMICOLON && !(depth == 0 && (t == CLOSE || IsWord(p, t, "values") || IsWord(p, t, "select")))
    ensures HeaderDepth(p, [t] + header, depth) ==
            HeaderDepth(p, header, if t == OPEN then depth + 1 else if t == CLOSE then depth - 1 else depth)
  {
    assert ([t] + header)[1..] == header;
  }

  /** Tokens without a semicolon are one statement. */
  lemma EveryStatement(p: Profile, ts: seq<Token>) returns (st: Statement)
    requires OneStatement(ts)
    ensures ValidStatement(p, st) && StatementTokens(st) == ts
  {
    st := Other(ts);
    if |ts| > 1 && IsWord(p, ts[0], "create") && IsWord(p, ts[1], "table") && !NoName(p, ts[2..]) {
      var guard, rest := GuardSplits(p, ts[2..]);
      st := CreateTable(ts[0], ts[1], guard, rest[0], rest[1..]);
      assert ts == [ts[0], ts[1]] + (guard + ([rest[0]] + rest[1..]));
    } else if ts != [] && IsWord(p, ts[0], "insert") && !NoTarget(p, ts[1..], 5) {
      var i :| 0 <= i < |ts| - 1 && IntoAt(p, ts[1..], i, 5) && i + 1 < |ts| - 1 && IsName(ts[1..][i + 1]);
      st := EveryInsert(p, ts, i);
    }
  }

  lemma EveryInsert(p: Profile, ts: seq<Token>, i: nat) returns (st: Statement)
    requires ts != [] && IsWord(p, ts[0], "insert") && OneStatement(ts)
    requires IntoAt(p, ts[1..], i, 5) && i + 2 < |ts| && IsName(ts[i + 2])
    ensures ValidStatement(p, st) && StatementTokens(st) == ts
  {
    var header, source := HeaderSplits(p, ts[i + 3..], 0);
    st := Insert(ts[0], ts[1..][..i], ts[i + 1], ts[i + 2], header, source);
    PrefixFree(p, ts[1..], i);
    InsertJoins(ts, i, header, SourceTokens(source));
  }

  lemma PrefixFree(p: Profile, ts: seq<Token>, i: nat)
    requires IntoAt(p, ts, i, 5) && OneStatement(ts)
    ensures OneStatement(ts[..i]) && forall t | t in ts[..i] :: !IsWord(p, t, "into")
  {
  }

  lemma InsertJoins(ts: seq<Token>, i: nat, header: seq<Token>, source: seq<Token>)
    requires i + 2 < |ts| && ts[i + 3..] == header + source
    ensures [ts[0]] + ts[1..][..i] + [ts[i + 1], ts[i + 2]] + header + source == ts
  {
    var head := [ts[0]] + ts[1..][..i] + [ts[i + 1], ts[i + 2]];
    assert head == ts[..i + 3];
    assert ts == ts[..i + 3] + ts[i + 3..];
    assert head + header + source == head + (header + source);
  }

  /** The first of several statements. */
  lemma {:induction false} StatementSplits(ts: seq<Token>) returns (first: seq<Token>, rest: seq<Token>)
    requires SEMICOLON in ts
    ensures ts == first + [SEMICOLON] + rest && OneStatement(first)
  {
    if ts[0] == SEMICOLON {
      first, rest := [], ts[1..];
    } else {
      first, rest := StatementSplits(ts[1..]);
      first := [ts[0]] + first;
    }
  }

  lemma {:induction false} EveryDump(p: Profile, ts: seq<Token>) returns (dump: seq<Statement>, lastTerminated: bool)
    ensures forall st | st in dump :: ValidStatement(p, st)
    ensures DumpTokens(dump, lastTerminated) == ts && (dump == [] ==> ts == [])
    decreases |ts|
  {
    if ts == [] {
      dump, lastTerminated := [], true;
    } else if SEMICOLON in ts {
      var first, rest := StatementSplits(ts);
      var st := EveryStatement(p, first);
      if rest == [] {
        dump, lastTerminated := [st], true;
      } else {
        dump, lastTerminated := EveryDump(p, rest);
        dump := [st] + dump;
        assert dump[1..] == dump[1..];
      }
    } else {
      var st := EveryStatement(p, ts);
      dump, lastTerminated := [st], false;
    }
  }

  /** Every text that ends between tokens is a layout of some dump, and its inventory is the tally of that dump. */
  lemma EveryInventory(p: Profile, text: string)
    returns (pieces: seq<Piece>, dump: seq<Statement>, lastTerminated: bool)
    requires End(Run(Idle([]), text)).Success?
    ensures ValidPieces(pieces) && PrintAll(pieces) == text
    ensures forall st | st in dump :: ValidStatement(p, st)
    ensures AllTokens(pieces) == DumpTokens(dump, lastTerminated)
    ensures Scanned(p, text) == Inventory(p, dump)
  {
    pieces := LexedIsPrinted(text, []);
    dump, lastTerminated := EveryDump(p, AllTokens(pieces));
    PrintedInventory(p, dump, lastTerminated, pieces);
  }

  // ----- What the tally counts -----

  /** The rows that the statements insert into a table. */
  function RowsPrinted(p: Profile, dump: seq<Statement>, key: string): nat {
    if dump == [] then 0
    else RowsPrinted(p, dump[1..], key) + if Fills(p, dump[0], key) then |dump[0].source.rows| else 0
  }

  /** The parenthesised groups of the clauses after these rows. */
  function ClauseGroups(p: Profile, dump: seq<Statement>, key: string): nat {
    if dump == [] then 0
    else ClauseGroups(p, dump[1..], key) + if Fills(p, dump[0], key) then Groups(dump[0].source.clause, 0) else 0
  }

  predicate Fills(p: Profile, st: Statement, key: string) {
    st.Insert? && Key(p, st) == key && st.source.Rows?
  }

  predicate Defines(p: Profile, st: Statement, key: string) {
    st.CreateTable? && Key(p, st) == key
  }

  predicate Defined(p: Profile, dump: seq<Statement>, key: string) {
    exists st | st in dump :: Defines(p, st, key)
  }

  /** The rows and groups before the table's definition. */
  function BeforeDefinition(p: Profile, dump: seq<Statement>, key: string): nat {
    if dump == [] || Defines(p, dump[0], key) || !Defined(p, dump, key) then 0
    else BeforeDefinition(p, dump[1..], key) + if Fills(p, dump[0], key) then RowCount(dump[0].source) else 0
  }

  /** Continuing from any tally: what follows the definition, or everything on top of what was counted. */
  lemma {:induction false} TallyCounts(p: Profile, tally: Tally, dump: seq<Statement>, key: string)
    requires key in p.counted && RecordAll(p, tally, dump).Ok?
    ensures var last := RecordAll(p, tally, dump).value;
            var all := RowsPrinted(p, dump, key) + ClauseGroups(p, dump, key);
            && (key in last.created <==> key in tally.created || Defined(p, dump, key))
            && (key in tally.created ==> !Defined(p, dump, key))
            && CountOf(last, key) + BeforeDefinition(p, dump, key) ==
               all + (if Defined(p, dump, key) then 0 else CountOf(tally, key))
            && (key in last.counts <==> key in tally.counts || Defined(p, dump, key) || all > 0)
            && (key in last.inserted <==> key in tally.inserted || all > 0)
    decreases |dump|
  {
    if dump != [] {
      var st, more := dump[0], dump[1..];
      var next := Record(p, tally, st).value;
      TallyCounts(p, next, more, key);
      assert Defined(p, dump, key) <==> Defines(p, st, key) || Defined(p, more, key) by {
        assert dump == [st] + more;
      }
    }
  }

  lemma {:induction false} TallyKeys(p: Profile, tally: Tally, dump: seq<Statement>)
    requires RecordAll(p, tally, dump).Ok? && tally.counts.Keys <= p.counted
    ensures RecordAll(p, tally, dump).value.counts.Keys <= p.counted
    decreases |dump|
  {
    if dump != [] {
      TallyKeys(p, Record(p, tally, dump[0]).value, dump[1..]);
    }
  }

  /**
   The inventory lists exactly the counted tables that the dump defines. A table's count is that of its rows exactly
   when the groups that clauses add make up for what the definition forgets: the definition resets the count.
   */
  lemma {:induction false} InventoryCounts(p: Profile, dump: seq<Statement>, key: string)
    requires Inventory(p, dump).Ok?
    ensures var counts, rows := Inventory(p, dump).value, RowsPrinted(p, dump, key);
            && (key in counts <==> key in p.counted && Defined(p, dump, key))
            && (key in counts ==>
                 && counts[key] == rows + ClauseGroups(p, dump, key) - BeforeDefinition(p, dump, key)
                 && (counts[key] == rows <==> ClauseGroups(p, dump, key) == BeforeDefinition(p, dump, key)))
  {
    TallyKeys(p, EMPTY, dump);
    if key in p.counted {
      TallyCounts(p, EMPTY, dump, key);
    }
  }

  // ----- Dumps that are counted wrongly -----

  /** One definition and one INSERT with countable rows, in either order. */
  lemma TwoStatements(p: Profile, insert: Statement, definition: Statement)
    requires insert.Insert? && Countable(insert.source) && RowCount(insert.source) <= SAFE_MAX
    requires Defines(p, definition, Key(p, insert)) && Key(p, insert) in p.counted
    ensures Inventory(p, [insert, definition]) == Ok(map[Key(p, insert) := 0])
    ensures Inventory(p, [definition, insert]) == Ok(map[Key(p, insert) := RowCount(insert.source)])
  {
    var key, n := Key(p, insert), RowCount(insert.source);
    assert [insert, definition][1..] == [definition] && [definition][1..] == [];
    assert [definition, insert][1..] == [insert] && [insert][1..] == [];
    var filled := EMPTY.(counts := map[key := n], inserted := {key});
    assert EMPTY.inserted + {key} == {key};
    assert Record(p, EMPTY, insert) == Ok(filled);
    var created := EMPTY.(created := {key}, counts := map[key := 0]);
    assert EMPTY.created + {key} == {key};
    assert Record(p, EMPTY, definition) == Ok(created);
    assert filled.counts[key := 0] == map[key := 0] && created.counts[key := n] == map[key := n];
    assert RecordAll(p, EMPTY, [insert]) == Ok(filled) && RecordAll(p, EMPTY, [definition]) == Ok(created);
    assert RecordAll(p, filled, [definition]) == Ok(filled.(created := {key}, counts := map[key := 0]));
    assert RecordAll(p, created, [insert]) == Ok(created.(inserted := {key}, counts := map[key := n]));
  }

  lemma {:induction false} TwoStatementRows(p: Profile, insert: Statement, definition: Statement)
    requires insert.Insert? && insert.source.Rows? && Defines(p, definition, Key(p, insert))
    ensures RowsPrinted(p, [insert, definition], Key(p, insert)) == |insert.source.rows|
    ensures RowsPrinted(p, [definition, insert], Key(p, insert)) == |insert.source.rows|
  {
    assert [insert, definition][1..] == [definition] && [definition][1..] == [];
    assert [definition, insert][1..] == [insert] && [insert][1..] == [];
    assert RowsPrinted(p, [definition], Key(p, insert)) == 0;
  }

  /** Rows printed before the definition of their table are all forgotten, in every layout of the text. */
  lemma {:induction false} DefinitionResets(p: Profile, insert: Statement, definition: Statement,
                                            lastTerminated: bool, pieces: seq<Piece>)
    requires ValidStatement(p, insert) && insert.Insert? && Countable(insert.source)
    requires 1 <= |insert.source.rows| && RowCount(insert.source) <= SAFE_MAX
    requires ValidStatement(p, definition) && Defines(p, definition, Key(p, insert)) && Key(p, insert) in p.counted
    requires ValidPieces(pieces) && AllTokens(pieces) == DumpTokens([insert, definition], lastTerminated)
    ensures Scanned(p, PrintAll(pieces)) == Ok(map[Key(p, insert) := 0])
    ensures RowsPrinted(p, [insert, definition], Key(p, insert)) > 0
  {
    PrintedInventory(p, [insert, definition], lastTerminated, pieces);
    TwoStatements(p, insert, definition);
    TwoStatementRows(p, insert, definition);
  }

  /** The outermost groups of a clause after the rows are counted as rows, in every layout of the text. */
  lemma {:induction false} ClauseAdds(p: Profile, definition: Statement, insert: Statement,
                                      lastTerminated: bool, pieces: seq<Piece>)
    requires ValidStatement(p, insert) && insert.Insert? && Countable(insert.source)
    requires Groups(insert.source.clause, 0) > 0 && RowCount(insert.source) <= SAFE_MAX
    requires ValidStatement(p, definition) && Defines(p, definition, Key(p, insert)) && Key(p, insert) in p.counted
    requires ValidPieces(pieces) && AllTokens(pieces) == DumpTokens([definition, insert], lastTerminated)
    ensures var key := Key(p, insert);
            var r := Scanned(p, PrintAll(pieces));
            && r.Ok? && key in r.value
            && r.value[key] == RowsPrinted(p, [definition, insert], key) + Groups(insert.source.clause, 0)
  {
    PrintedInventory(p, [definition, insert], lastTerminated, pieces);
    TwoStatements(p, insert, definition);
    TwoStatementRows(p, insert, definition);
  }

  function W(text: string): Token {
    Token(Word, text)
  }

  const ORDER_TABLE := CreateTable(W("create"), W("table"), [], W("orders"), [])

  /** `on conflict (id) do nothing` */
  const ON_CONFLICT := [W("on"), W("conflict"), OPEN, W("id"), CLOSE, W("do"), W("nothing")]

  /** `insert into orders values (1)`, and a clause. */
  function OrderRow(clause: seq<Token>): Statement {
    Insert(W("insert"), [], W("into"), W("orders"), [], Rows(W("values"), [[W("1")]], clause))
  }

  /** One row before the definition of its table is reported as none, one row with a conflict clause as two. */
  lemma {:induction false} WrongCounts(p: Profile)
    requires (forall s: string :: p.lower(s) == s) && "orders" in p.counted
    ensures ValidStatement(p, OrderRow([])) && ValidStatement(p, ORDER_TABLE)
    ensures ValidStatement(p, OrderRow(ON_CONFLICT))
    ensures Inventory(p, [OrderRow([]), ORDER_TABLE]) == Ok(map["orders" := 0])
    ensures Inventory(p, [ORDER_TABLE, OrderRow(ON_CONFLICT)]) == Ok(map["orders" := 2])
    ensures RowsPrinted(p, [OrderRow([]), ORDER_TABLE], "orders") == 1
    ensures RowsPrinted(p, [ORDER_TABLE, OrderRow(ON_CONFLICT)], "orders") == 1
  {
    assert [W("1")][1..] == [] && RowDepth([W("1")], 1) == RowDepth([], 1);
    ConflictGroups();
    TwoStatements(p, OrderRow([]), ORDER_TABLE);
    TwoStatementRows(p, OrderRow([]), ORDER_TABLE);
    TwoStatements(p, OrderRow(ON_CONFLICT), ORDER_TABLE);
    TwoStatementRows(p, OrderRow(ON_CONFLICT), ORDER_TABLE);
  }

  lemma ConflictGroups()
    ensures OneStatement(ON_CONFLICT) && Groups(ON_CONFLICT, 0) == 1 && ClauseDepth(ON_CONFLICT, 0) == Some(0)
  {
    var c := ON_CONFLICT;
    assert c[6..][1..] == [] && c[5..][1..] == c[6..];
    assert Groups(c[6..], 0) == 0 && ClauseDepth(c[6..], 0) == Some(0);
    assert Groups(c[5..], 0) == 0 && ClauseDepth(c[5..], 0) == Some(0);
    assert c[4..][1..] == c[5..] && c[3..][1..] == c[4..];
    assert Groups(c[3..], 1) == 0 && ClauseDepth(c[3..], 1) == Some(0);
    assert c[2..][1..] == c[3..] && c[1..][1..] == c[2..];
    assert Groups(c[1..], 0) == 1 && ClauseDepth(c[1..], 0) == Some(0);
  }

  /** The tokens of the two dumps. */
  lemma WrongCountTokens()
    ensures DumpTokens([OrderRow([]), ORDER_TABLE], false) ==
            [W("insert"), W("into"), W("orders"), W("values"), OPEN, W("1"), CLOSE, SEMICOLON] +
            [W("create"), W("table"), W("orders")]
    ensures DumpTokens([ORDER_TABLE, OrderRow(ON_CONFLICT)], false) ==
            [W("create"), W("table"), W("orders"), SEMICOLON] +
            [W("insert"), W("into"), W("orders"), W("values"), OPEN, W("1"), CLOSE] +
            [W("on"), W("conflict"), OPEN, W("id"), CLOSE, W("do"), W("nothing")]
  {
    OrderTokens([]);
    OrderTokens(ON_CONFLICT);
    TwoStatementTokens(OrderRow([]), ORDER_TABLE);
    TwoStatementTokens(ORDER_TABLE, OrderRow(ON_CONFLICT));
  }

  lemma OrderTokens(clause: seq<Token>)
    ensures StatementTokens(OrderRow(clause)) ==
            [W("insert"), W("into"), W("orders"), W("values"), OPEN, W("1"), CLOSE] + clause
    ensures StatementTokens(ORDER_TABLE) == [W("create"), W("table"), W("orders")]
  {
    var rows := [[W("1")]];
    assert rows[..0] == [] && RowsTokens(rows) == [OPEN, W("1"), CLOSE];
  }

  lemma TwoStatementTokens(first: Statement, last: Statement)
    ensures DumpTokens([first, last], false) == StatementTokens(first) + [SEMICOLON] + StatementTokens(last)
  {
    assert [first, last][1..] == [last];
    assert StatementTokens(last) + [] == StatementTokens(last);
  }
}
