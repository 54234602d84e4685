/**
 The token-level half of the backup inventory scanner (`snapshot-inventory.ts`): one token takes the statement
 interpreter from one state to the next, or aborts the scan.

 `Profile.lower` stands for the host's lower-casing, which is not limited to ASCII letters; every result holds
 for any such function and any set of counted tables.
 */
module SqlInterpreter {
  import SafeIntegers
  import opened Wrappers
  import opened SqlLexer

  datatype Profile = Profile(lower: string -> string, counted: set<string>)

  datatype Phase =
    | Start
    | CreateAfterCreate
    | CreateAfterTable
    | CreateAfterIf
    | CreateAfterNot
    | CreateDone
    | InsertSeekInto
    | InsertTable
    | InsertSeekValues
    | InsertValues
    | Ignored

  datatype ScanError =
    | CountOverflow
    | DuplicateTableDefinition
    | UnsupportedInsert
    | TableDefinitionMissing
    | InvalidStream

  datatype Result<+T> = Ok(value: T) | Err(error: ScanError)

  /** What the scan has established about the tables so far. */
  datatype Tally = Tally(created: set<string>, inserted: set<string>, counts: map<string, nat>)

  /** The tally, and the fields that describe the statement being read. */
  datatype Interp = Interp(
    tally: Tally,
    phase: Phase,
    table: Option<string>,
    headerDepth: nat,
    valueDepth: nat,
    rowCount: nat,
    prefixTokens: nat
  )

  const SAFE_MAX := SafeIntegers.SAFE_MAX

  function Fresh(tally: Tally): Interp {
    Interp(tally, Start, None, 0, 0, 0, 0)
  }

  const SEMICOLON := Token(Punctuation, ";")
  const OPEN := Token(Punctuation, "(")
  const CLOSE := Token(Punctuation, ")")
  const COMMA := Token(Punctuation, ",")

  predicate IsWord(p: Profile, t: Token, w: string) {
    t.kind == Word && p.lower(t.value) == w
  }

  predicate IsName(t: Token) {
    t.kind == Word || t.kind == Identifier
  }

  function RecordCreatedTable(p: Profile, s: Interp, t: Token): Result<Interp> {
    if !IsName(t) then Ok(s.(phase := Ignored))
    else
      var table := p.lower(t.value);
      if table !in p.counted then Ok(s.(phase := CreateDone))
      else if table in s.tally.created then Err(DuplicateTableDefinition)
      else
        Ok(s.(phase := CreateDone,
              tally := s.tally.(created := s.tally.created + {table}, counts := s.tally.counts[table := 0])))
  }

  function EndStatement(p: Profile, s: Interp): Result<Interp> {
    if s.table.Some? && s.table.value in p.counted then
      var table := s.table.value;
      if s.phase != InsertValues || s.valueDepth != 0 || s.rowCount < 1 then Err(UnsupportedInsert)
      else
        var next := (if table in s.tally.counts then s.tally.counts[table] else 0) + s.rowCount;
        if next > SAFE_MAX then Err(CountOverflow)
        else Ok(Fresh(s.tally.(counts := s.tally.counts[table := next], inserted := s.tally.inserted + {table})))
    else Ok(Fresh(s.tally))
  }

  function TokenStep(p: Profile, s: Interp, t: Token): Result<Interp> {
    if t == SEMICOLON then EndStatement(p, s)
    else
      match s.phase
      case Start =>
        Ok(s.(phase := if IsWord(p, t, "create") then CreateAfterCreate
                       else if IsWord(p, t, "insert") then InsertSeekInto
                       else Ignored))
      case CreateAfterCreate =>
        Ok(s.(phase := if IsWord(p, t, "table") then CreateAfterTable else Ignored))
      case CreateAfterTable =>
        if IsWord(p, t, "if") then Ok(s.(phase := CreateAfterIf)) else RecordCreatedTable(p, s, t)
      case CreateAfterIf =>
        Ok(s.(phase := if IsWord(p, t, "not") then CreateAfterNot else Ignored))
      case CreateAfterNot =>
        Ok(s.(phase := if IsWord(p, t, "exists") then CreateAfterTable else Ignored))
      case InsertSeekInto =>
        var n := s.prefixTokens + 1;
        Ok(s.(prefixTokens := n,
              phase := if IsWord(p, t, "into") then InsertTable else if n > 4 then Ignored else InsertSeekInto))
      case InsertTable =>
        if IsName(t) then Ok(s.(table := Some(p.lower(t.value)), phase := InsertSeekValues))
        else Ok(s.(phase := Ignored))
      case InsertSeekValues =>
        if t == OPEN then Ok(s.(headerDepth := s.headerDepth + 1))
        else if t == CLOSE then
          if s.headerDepth < 1 then Ok(s.(phase := Ignored)) else Ok(s.(headerDepth := s.headerDepth - 1))
        else if IsWord(p, t, "values") && s.headerDepth == 0 then Ok(s.(phase := InsertValues))
        else if IsWord(p, t, "select") && s.headerDepth == 0 then Ok(s.(phase := Ignored))
        else Ok(s)
      case InsertValues =>
        if t == OPEN then
          var n := if s.valueDepth == 0 then s.rowCount + 1 else s.rowCount;
          if s.valueDepth == 0 && n > SAFE_MAX then Err(CountOverflow)
          else Ok(s.(rowCount := n, valueDepth := s.valueDepth + 1))
        else if t == CLOSE then
          if s.valueDepth < 1 then Ok(s.(phase := Ignored)) else Ok(s.(valueDepth := s.valueDepth - 1))
        else Ok(s)
      case CreateDone => Ok(s)
      case Ignored => Ok(s)
  }

  function Interpret(p: Profile, s: Interp, ts: seq<Token>): Result<Interp>
    decreases |ts|
  {
    if ts == [] then Ok(s)
    else
      var next := TokenStep(p, s, ts[0]);
      if next.Ok? then Interpret(p, next.value, ts[1..]) else next
  }

  /** Ends an unterminated statement; every table with rows must have been defined. */
  function Finish(p: Profile, s: Interp): Result<map<string, nat>> {
    var ended := if s.phase == Start then Ok(s) else EndStatement(p, s);
    if ended.Err? then Err(ended.error)
    else if !(ended.value.tally.inserted <= ended.value.tally.created) then Err(TableDefinitionMissing)
    else Ok(ended.value.tally.counts)
  }

  function Then(p: Profile, r: Result<Interp>, ts: seq<Token>): Result<Interp> {
    if r.Ok? then Interpret(p, r.value, ts) else r
  }

  lemma {:induction false} InterpretConcat(p: Profile, s: Interp, a: seq<Token>, b: seq<Token>)
    ensures Interpret(p, s, a + b) == Then(p, Interpret(p, s, a), b)
    decreases |a|
  {
    if a == [] {
      assert a + b == b;
    } else {
      assert (a + b)[1..] == a[1..] + b;
      var next := TokenStep(p, s, a[0]);
      if next.Ok? {
        InterpretConcat(p, next.value, a[1..], b);
      }
    }
  }

  lemma {:induction false} InterpretOne(p: Profile, s: Interp, t: Token)
    ensures Interpret(p, s, [t]) == TokenStep(p, s, t)
  {
    assert [t][1..] == [];
  }

  /** The counts are of counted tables only. */
  lemma {:induction false} OnlyCounted(p: Profile, s: Interp, ts: seq<Token>)
    requires s.tally.counts.Keys <= p.counted
    ensures Interpret(p, s, ts).Ok? ==> Interpret(p, s, ts).value.tally.counts.Keys <= p.counted
    decreases |ts|
  {
    if ts != [] && TokenStep(p, s, ts[0]).Ok? {
      OnlyCounted(p, TokenStep(p, s, ts[0]).value, ts[1..]);
    }
  }
}
