/**
 The streaming scanner itself (`snapshot-inventory.ts`): a tokenizer and an interpreter that change their fields
 for every character and token. An exception of the source is an error result; the scan ends with it.
 */
module SqlScanner {
  import opened Wrappers
  import opened SqlLexer
  import opened SqlInterpreter
  import opened SqlDump

  const SNAPSHOT_COUNTED_TABLES: seq<string> := [
    "device_bound_devices", "device_bound_bindings", "device_bound_events", "device_bound_operations",
    "entitlements", "entitlement_events", "mutation_idempotency", "customers", "licenses", "orders",
    "order_events", "customer_events", "entitlement_policies", "policy_events", "webhook_endpoints",
    "audit_digests", "catalog_features", "catalog_plans", "catalog_plan_features", "license_plan_assignments",
    "catalog_events", "webhook_events", "license_plan_assignment_events"]

  /** The tables whose rows a restore drill compares (`restore-drill.mjs`). */
  const REQUIRED_TABLES: seq<string> := [
    "device_bound_devices", "device_bound_bindings", "device_bound_events", "device_bound_operations",
    "entitlements", "entitlement_events", "mutation_idempotency", "customers", "licenses", "orders",
    "order_events", "customer_events", "entitlement_policies", "policy_events", "webhook_endpoints",
    "audit_digests", "catalog_features", "catalog_plans", "catalog_plan_features", "license_plan_assignments",
    "catalog_events", "webhook_events", "license_plan_assignment_events"]

  /** The scan counts what the drill compares. */
  lemma CountedAreRequired()
    ensures SNAPSHOT_COUNTED_TABLES == REQUIRED_TABLES
  {
  }

  class SnapshotInventoryInterpreter {
    const lower: string -> string
    const tables: seq<string>
    var createdTables: set<string>
    var insertedTables: set<string>
    var counts: map<string, nat>
    var phase: Phase
    var currentInsertTable: Option<string>
    var insertHeaderDepth: nat
    var insertValueDepth: nat
    var insertRowCount: nat
    var insertPrefixTokens: nat

    ghost function Rules(): Profile {
      Profile(lower, set t | t in tables)
    }

    ghost function State(): Interp
      reads this
    {
      Interp(Tally(createdTables, insertedTables, counts), phase, currentInsertTable, insertHeaderDepth,
             insertValueDepth, insertRowCount, insertPrefixTokens)
    }

    constructor (lower: string -> string, tables: seq<string>)
      ensures this.lower == lower && this.tables == tables
      ensures State() == Fresh(EMPTY)
    {
      this.lower, this.tables := lower, tables;
      createdTables, insertedTables, counts := {}, {}, map[];
      phase, currentInsertTable := Start, None;
      insertHeaderDepth, insertValueDepth, insertRowCount, insertPrefixTokens := 0, 0, 0, 0;
    }

    method HandleToken(kind: Kind, rawValue: string) returns (error: Option<ScanError>)
      modifies this
      ensures var r := TokenStep(Rules(), old(State()), Token(kind, rawValue));
              if error.None? then r == Ok(State()) else r == Err(error.value)
    {
      error := None;
      if kind == Punctuation && rawValue == ";" {
        error := HandleEnd();
        return;
      }
      var value := lower(rawValue);
      match phase {
        case Start =>
          phase := if kind == Word && value == "create" then CreateAfterCreate
                   else if kind == Word && value == "insert" then InsertSeekInto
                   else Ignored;
        case CreateAfterCreate =>
          phase := if kind == Word && value == "table" then CreateAfterTable else Ignored;
        case CreateAfterTable =>
          if kind == Word && value == "if" {
            phase := CreateAfterIf;
          } else {
            error := HandleCreatedTable(kind, rawValue, value);
          }
        case CreateAfterIf =>
          phase := if kind == Word && value == "not" then CreateAfterNot else Ignored;
        case CreateAfterNot =>
          phase := if kind == Word && value == "exists" then CreateAfterTable else Ignored;
        case InsertSeekInto =>
          insertPrefixTokens := insertPrefixTokens + 1;
          if kind == Word && value == "into" {
            phase := InsertTable;
          } else if insertPrefixTokens > 4 {
            phase := Ignored;
          }
        case InsertTable =>
          if kind == Word || kind == Identifier {
            currentInsertTable := Some(value);
            phase := InsertSeekValues;
          } else {
            phase := Ignored;
          }
        case InsertSeekValues =>
          if kind == Punctuation && rawValue == "(" {
            insertHeaderDepth := insertHeaderDepth + 1;
          } else if kind == Punctuation && rawValue == ")" {
            if insertHeaderDepth < 1 {
              phase := Ignored;
            } else {
              insertHeaderDepth := insertHeaderDepth - 1;
            }
          } else if kind == Word && value == "values" && insertHeaderDepth == 0 {
            phase := InsertValues;
          } else if kind == Word && value == "select" && insertHeaderDepth == 0 {
            phase := Ignored;
          }
        case InsertValues =>
          if kind == Punctuation && rawValue == "(" {
            if insertValueDepth == 0 {
              insertRowCount := insertRowCount + 1;
              if insertRowCount > SAFE_MAX {
                error := Some(CountOverflow);
                return;
              }
            }
            insertValueDepth := insertValueDepth + 1;
          } else if kind == Punctuation && rawValue == ")" {
            if insertValueDepth < 1 {
              phase := Ignored;
            } else {
              insertValueDepth := insertValueDepth - 1;
            }
          }
        case CreateDone =>
        case Ignored =>
      }
    }

    method HandleCreatedTable(kind: Kind, ghost rawValue: string, table: string) returns (error: Option<ScanError>)
      requires table == lower(rawValue)
      modifies this
      ensures var r := RecordCreatedTable(Rules(), old(State()), Token(kind, rawValue));
              if error.None? then r == Ok(State()) else r == Err(error.value)
    {
      error := None;
      if kind != Word && kind != Identifier {
        phase := Ignored;
        return;
      }
      if table in tables {
        if table in createdTables {
          error := Some(DuplicateTableDefinition);
          return;
        }
        createdTables := createdTables + {table};
        counts := counts[table := 0];
      }
      phase := CreateDone;
    }

    method HandleEnd() returns (error: Option<ScanError>)
      modifies this
      ensures var r := EndStatement(Rules(), old(State()));
              if error.None? then r == Ok(State()) else r == Err(error.value)
    {
      error := None;
      if currentInsertTable.Some? && currentInsertTable.value in tables {
        var table := currentInsertTable.value;
        if phase != InsertValues || insertValueDepth != 0 || insertRowCount < 1 {
          error := Some(UnsupportedInsert);
          return;
        }
        var prior := if table in counts then counts[table] else 0;
        var next := prior + insertRowCount;
        if next > SAFE_MAX {
          error := Some(CountOverflow);
          return;
        }
        counts := counts[table := next];
        insertedTables := insertedTables + {table};
      }
      phase, currentInsertTable := Start, None;
      insertHeaderDepth, insertValueDepth, insertRowCount, insertPrefixTokens := 0, 0, 0, 0;
    }

    method FinishInventory() returns (r: Result<map<string, nat>>)
      requires counts.Keys <= Rules().counted
      modifies this
      ensures r == Finish(Rules(), old(State()))
    {
      if phase != Start {
        var error := HandleEnd();
        if error.Some? {
          r := Err(error.value);
          return;
        }
      }
      if !(insertedTables <= createdTables) {
        r := Err(TableDefinitionMissing);
        return;
      }
      var tableCounts: map<string, nat> := map[];
      for i := 0 to |tables|
        invariant forall t :: t in tableCounts <==> t in tables[..i] && t in counts
        invariant forall t | t in tableCounts :: tableCounts[t] == counts[t]
      {
        assert tables[..i + 1] == tables[..i] + [tables[i]];
        if tables[i] in counts {
          tableCounts := tableCounts[tables[i] := counts[tables[i]]];
        }
      }
      assert tables[..|tables|] == tables;
      assert tableCounts == counts;
      r := Ok(tableCounts);
    }
  }

  class StreamingSqlTokenizer {
    const interpreter: SnapshotInventoryInterpreter
    var mode: Mode
    var word: string
    var quotedIdentifier: string
    /** Every token given to the interpreter so far. */
    ghost var emitted: seq<Token>

    ghost function State(): Scan
      reads this
    {
      Scan(mode, word, quotedIdentifier, emitted)
    }

    /** The interpreter has read exactly the emitted tokens. */
    ghost predicate InStep()
      reads this, interpreter
    {
      Interpret(interpreter.Rules(), Fresh(EMPTY), emitted) == Ok(interpreter.State())
    }

    constructor (lower: string -> string, tables: seq<string>)
      ensures fresh(interpreter) && InStep() && State() == Idle([])
      ensures interpreter.lower == lower && interpreter.tables == tables
    {
      interpreter := new SnapshotInventoryInterpreter(lower, tables);
      mode, word, quotedIdentifier, emitted := Normal, "", "", [];
    }

    method EmitToken(kind: Kind, value: string) returns (error: Option<ScanError>)
      requires InStep()
      modifies this`emitted, interpreter
      ensures State() == old(State()).Emit(Token(kind, value))
      ensures error.None? ==> InStep()
      ensures error.Some? ==> Interpret(interpreter.Rules(), Fresh(EMPTY), emitted) == Err(error.value)
    {
      InterpretConcat(interpreter.Rules(), Fresh(EMPTY), emitted, [Token(kind, value)]);
      InterpretOne(interpreter.Rules(), interpreter.State(), Token(kind, value));
      emitted := emitted + [Token(kind, value)];
      error := interpreter.HandleToken(kind, value);
    }

    method AppendWord(c: char)
      modifies this`word
      ensures word == AppendCapped(old(word), c)
    {
      if Units(word) < 256 {
        word := word + [c];
      }
    }

    method AppendQuotedIdentifier(c: char)
      modifies this`quotedIdentifier
      ensures quotedIdentifier == AppendCapped(old(quotedIdentifier), c)
    {
      if Units(quotedIdentifier) < 256 {
        quotedIdentifier := quotedIdentifier + [c];
      }
    }

    method FlushWordToken() returns (error: Option<ScanError>)
      requires InStep()
      modifies this`emitted, this`word, interpreter
      ensures State().tokens == FlushWord(old(State())).tokens
      ensures error.None? ==> InStep() && State() == FlushWord(old(State()))
      ensures error.Some? ==> Interpret(interpreter.Rules(), Fresh(EMPTY), emitted) == Err(error.value)
    {
      error := None;
      if word != "" {
        error := EmitToken(Word, word);
        if error.None? {
          word := "";
        }
      }
    }

    method FlushQuotedToken() returns (error: Option<ScanError>)
      requires InStep()
      modifies this`emitted, this`quotedIdentifier, interpreter
      ensures State().tokens == FlushQuotedIdentifier(old(State())).tokens
      ensures error.None? ==> InStep() && State() == FlushQuotedIdentifier(old(State()))
      ensures error.Some? ==> Interpret(interpreter.Rules(), Fresh(EMPTY), emitted) == Err(error.value)
    {
      error := EmitToken(Identifier, quotedIdentifier);
      if error.None? {
        quotedIdentifier := "";
      }
    }

    /** The scan goes on in the state `next`, or stopped inside it at an error of the interpreter. */
    ghost predicate Reached(next: Scan, error: Option<ScanError>)
      reads this, interpreter
    {
      if error.None? then InStep() && State() == next
      else emitted <= next.tokens && Interpret(interpreter.Rules(), Fresh(EMPTY), emitted) == Err(error.value)
    }

    method WriteNormal(c: char) returns (error: Option<ScanError>)
      requires InStep() && mode == Normal
      modifies this, interpreter
      ensures Reached(StepNormal(old(State()), c), error)
    {
      error := None;
      if IsWordChar(c) {
        AppendWord(c);
        return;
      }
      error := FlushWordToken();
      if error.Some? || IsSpace(c) {
        return;
      }
      if c == '-' {
        mode := Dash;
      } else if c == '/' {
        mode := Slash;
      } else if c == '\'' {
        mode := SingleQuote;
      } else if c == '"' {
        quotedIdentifier, mode := "", DoubleQuote;
      } else if c == '`' {
        quotedIdentifier, mode := "", Backtick;
      } else if c == '[' {
        quotedIdentifier, mode := "", Bracket;
      } else {
        error := EmitToken(Punctuation, [c]);
      }
    }

    /** One character outside the mode `Normal`; `again` asks to read it once more as `Normal`. */
    method WriteSpecial(c: char) returns (error: Option<ScanError>, again: bool)
      requires InStep() && mode != Normal
      modifies this, interpreter
      ensures !again ==> Reached(Step(old(State()), c), error)
      ensures again ==> error.None? && InStep() && mode == Normal && Step(old(State()), c) == StepNormal(State(), c)
    {
      error, again := None, false;
      match mode {
        case Dash =>
          if c == '-' {
            mode := LineComment;
          } else {
            error, again := EndToken(Punctuation, "-", c);
          }
        case Slash =>
          if c == '*' {
            mode := BlockComment;
          } else {
            error, again := EndToken(Punctuation, "/", c);
          }
        case LineComment =>
          if c == '\n' || c == '\r' {
            mode := Normal;
          }
        case BlockComment =>
          if c == '*' {
            mode := BlockCommentStar;
          }
        case BlockCommentStar =>
          if c == '/' {
            mode := Normal;
          } else if c != '*' {
            mode := BlockComment;
          }
        case SingleQuote =>
          if c == '\'' {
            mode := SingleQuoteEnd;
          }
        case SingleQuoteEnd =>
          if c == '\'' {
            mode := SingleQuote;
          } else {
            error, again := EndToken(Text, "", c);
          }
        case DoubleQuote =>
          if c == '"' {
            mode := DoubleQuoteEnd;
          } else {
            AppendQuotedIdentifier(c);
          }
        case DoubleQuoteEnd =>
          if c == '"' {
            AppendQuotedIdentifier(c);
            mode := DoubleQuote;
          } else {
            error, again := EndQuoted(c);
          }
        case Backtick =>
          if c == '`' {
            mode := BacktickEnd;
          } else {
            AppendQuotedIdentifier(c);
          }
        case BacktickEnd =>
          if c == '`' {
            AppendQuotedIdentifier(c);
            mode := Backtick;
          } else {
            error, again := EndQuoted(c);
          }
        case Bracket =>
          if c == ']' {
            error := FlushQuotedToken();
            if error.None? {
              mode := Normal;
            }
          } else {
            AppendQuotedIdentifier(c);
          }
      }
    }

    /** Emits the token that `c` completed and goes back to the mode `Normal`. */
    method EndToken(kind: Kind, value: string, ghost c: char) returns (error: Option<ScanError>, again: bool)
      requires InStep()
      modifies this`emitted, this`mode, interpreter
      ensures again <==> error.None?
      ensures again ==> InStep() && State() == old(State()).Emit(Token(kind, value)).(mode := Normal)
      ensures !again ==> Reached(StepNormal(old(State()).Emit(Token(kind, value)), c), error)
    {
      StepNormalAdds(State().Emit(Token(kind, value)), c);
      error := EmitToken(kind, value);
      again := error.None?;
      if again {
        mode := Normal;
      }
    }

    method EndQuoted(ghost c: char) returns (error: Option<ScanError>, again: bool)
      requires InStep()
      modifies this`emitted, this`mode, this`quotedIdentifier, interpreter
      ensures again <==> error.None?
      ensures again ==> InStep() && State() == FlushQuotedIdentifier(old(State())).(mode := Normal)
      ensures !again ==> Reached(StepNormal(FlushQuotedIdentifier(old(State())), c), error)
    {
      StepNormalAdds(FlushQuotedIdentifier(State()), c);
      error := FlushQuotedToken();
      again := error.None?;
      if again {
        mode := Normal;
      }
    }

    method WriteCharacter(c: char) returns (error: Option<ScanError>)
      requires InStep()
      modifies this, interpreter
      ensures Reached(Step(old(State()), c), error)
    {
      error := None;
      var reprocess := true;
      while reprocess
        invariant reprocess ==> error.None? && InStep()
        invariant reprocess ==>
                    || State() == old(State())
                    || (mode == Normal && Step(old(State()), c) == StepNormal(State(), c))
        invariant !reprocess ==> Reached(Step(old(State()), c), error)
        decreases reprocess, mode != Normal
      {
        if mode == Normal {
          error := WriteNormal(c);
          reprocess := false;
        } else {
          error, reprocess := WriteSpecial(c);
        }
      }
    }

    /** A chunk of text; after an error of the interpreter the scan is over. */
    method WriteText(text: string) returns (error: Option<ScanError>)
      requires InStep()
      modifies this, interpreter
      ensures Reached(Run(old(State()), text), error)
    {
      error := None;
      assert text[0..] == text;
      for i := 0 to |text|
        invariant error.None? && InStep() && Run(State(), text[i..]) == Run(old(State()), text)
      {
        assert text[i..][1..] == text[i + 1..];
        RunAdds(Step(State(), text[i]), text[i + 1..]);
        error := WriteCharacter(text[i]);
        if error.Some? {
          return;
        }
      }
    }

    /** Completes the last token and reports the inventory. */
    method FinishScan() returns (r: Result<map<string, nat>>)
      requires InStep()
      modifies this, interpreter
      ensures r == if End(old(State())).Success?
                   then FinishAll(interpreter.Rules(),
                                  Interpret(interpreter.Rules(), Fresh(EMPTY), End(old(State())).value))
                   else Err(InvalidStream)
    {
      var error: Option<ScanError> := None;
      match mode {
        case Normal => error := FlushWordToken();
        case Dash => error := EmitToken(Punctuation, "-");
        case Slash => error := EmitToken(Punctuation, "/");
        case LineComment =>
        case SingleQuoteEnd => error := EmitToken(Text, "");
        case DoubleQuoteEnd => error := FlushQuotedToken();
        case BacktickEnd => error := FlushQuotedToken();
        case _ =>
          r := Err(InvalidStream);
          return;
      }
      if error.Some? {
        r := Err(error.value);
        return;
      }
      OnlyCounted(interpreter.Rules(), Fresh(EMPTY), emitted);
      r := interpreter.FinishInventory();
    }
  }

  lemma StepNormalAdds(s: Scan, c: char)
    ensures s.tokens <= StepNormal(s, c).tokens
  {
  }

  lemma StepAdds(s: Scan, c: char)
    ensures s.tokens <= Step(s, c).tokens
  {
    if s.mode == Normal {
      StepNormalAdds(s, c);
    } else if s.mode in {Dash, Slash, SingleQuoteEnd} {
      var t := if s.mode == Dash then Token(Punctuation, "-") else if s.mode == Slash then Token(Punctuation, "/")
               else Token(Text, "");
      StepNormalAdds(s.Emit(t), c);
    } else if s.mode in {DoubleQuoteEnd, BacktickEnd} {
      StepNormalAdds(FlushQuotedIdentifier(s), c);
    }
  }

  lemma {:induction false} RunAdds(s: Scan, text: string)
    ensures s.tokens <= Run(s, text).tokens
    decreases |text|
  {
    if text != "" {
      StepAdds(s, text[0]);
      RunAdds(Step(s, text[0]), text[1..]);
    }
  }

  function Concat(chunks: seq<string>): string {
    if chunks == [] then "" else Concat(chunks[..|chunks| - 1]) + chunks[|chunks| - 1]
  }

  /** An error on the tokens so far is the error of the whole text. */
  lemma {:induction false} ErrorStays(p: Profile, emitted: seq<Token>, text: string, more: string)
    requires emitted <= Run(Idle([]), text).tokens && Interpret(p, Fresh(EMPTY), emitted).Err?
    ensures Scanned(p, text + more) == Err(Interpret(p, Fresh(EMPTY), emitted).error)
  {
    RunConcat(Idle([]), text, more);
    RunAdds(Run(Idle([]), text), more);
    var tokens := Run(Idle([]), text + more).tokens;
    assert tokens == emitted + tokens[|emitted|..];
    InterpretConcat(p, Fresh(EMPTY), emitted, tokens[|emitted|..]);
  }

  lemma {:induction false} ConcatSplit(chunks: seq<string>, i: nat)
    requires i <= |chunks|
    ensures exists more :: Concat(chunks) == Concat(chunks[..i]) + more
  {
    if i == |chunks| {
      assert chunks[..i] == chunks;
      assert Concat(chunks) == Concat(chunks[..i]) + "";
    } else {
      var init := chunks[..|chunks| - 1];
      ConcatSplit(init, i);
      assert init[..i] == chunks[..i];
      var more :| Concat(init) == Concat(chunks[..i]) + more;
      assert Concat(chunks) == Concat(chunks[..i]) + (more + chunks[|chunks| - 1]);
    }
  }

  /** The scan of a text depends only on its characters, not on the chunks it arrives in. */
  method ScanChunks(lower: string -> string, chunks: seq<string>) returns (r: Result<map<string, nat>>)
    ensures r == Scanned(Profile(lower, set t | t in SNAPSHOT_COUNTED_TABLES), Concat(chunks))
  {
    var tokenizer := new StreamingSqlTokenizer(lower, SNAPSHOT_COUNTED_TABLES);
    ghost var p := Profile(lower, set t | t in SNAPSHOT_COUNTED_TABLES);
    for i := 0 to |chunks|
      invariant fresh(tokenizer) && fresh(tokenizer.interpreter) && tokenizer.interpreter.Rules() == p
      invariant tokenizer.InStep() && tokenizer.State() == Run(Idle([]), Concat(chunks[..i]))
    {
      assert chunks[..i + 1][..i] == chunks[..i];
      RunConcat(Idle([]), Concat(chunks[..i]), chunks[i]);
      var error := tokenizer.WriteText(chunks[i]);
      if error.Some? {
        ConcatSplit(chunks, i + 1);
        var more :| Concat(chunks) == Concat(chunks[..i + 1]) + more;
        ErrorStays(p, tokenizer.emitted, Concat(chunks[..i + 1]), more);
        r := Err(error.value);
        return;
      }
    }
    assert chunks[..|chunks|] == chunks;
    r := tokenizer.FinishScan();
  }
}
