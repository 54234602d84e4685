/**
 The texts that are hashed, signed and compared (`bound_protocol.cpp`): the body of an operation, its digest input, the
 proof input and the enrollment comparison input. Each text determines its kind and every input it was built from.
 */
module Transcript {
  import opened Wrappers
  import opened Base64
  import opened Texts
  import opened Utf8
  import opened TextRules
  import opened SafeIntegers
  import opened Operations
  import opened UrlFields
  import opened Url64Accumulator

  // ----- Lines -----

  function Line(field: string): string {
    Field64(field) + "\n"
  }

  ghost predicate ByteTexts(fields: seq<string>) {
    forall f | f in fields :: ByteText(f)
  }

  function Lines(fields: seq<string>): string {
    if fields == [] then "" else Line(fields[0]) + Lines(fields[1..])
  }

  predicate FieldTexts(fields: seq<string>) {
    forall f | f in fields :: FieldText(f)
  }

  lemma FieldTextsAreBytes(fields: seq<string>)
    requires FieldTexts(fields)
    ensures ByteTexts(fields)
  {
    forall f | f in fields ensures ByteText(f) {
      Utf8IsBytes(f);
    }
  }

  lemma NoSeparator(field: string, c: char)
    requires !IsUrlChar(c)
    ensures c !in Field64(field)
  {
    Url64Chars(Octets(field));
  }

  lemma {:induction false} LinesDetermine(fs: seq<string>, a: string, gs: seq<string>, b: string)
    requires ByteTexts(fs) && ByteTexts(gs) && |fs| == |gs| && Lines(fs) + a == Lines(gs) + b
    ensures fs == gs && a == b
  {
    if fs == [] {
      assert "" + a == a && "" + b == b;
    } else {
      var f, g := fs[0], gs[0];
      NoSeparator(f, '\n');
      NoSeparator(g, '\n');
      assert Lines(fs) + a == Field64(f) + ['\n'] + (Lines(fs[1..]) + a);
      assert Lines(gs) + b == Field64(g) + ['\n'] + (Lines(gs[1..]) + b);
      CutAt('\n', Field64(f), Lines(fs[1..]) + a, Field64(g), Lines(gs[1..]) + b);
      Field64Injective(f, g);
      LinesDetermine(fs[1..], a, gs[1..], b);
    }
  }

  lemma {:induction false} LinesConcat(fs: seq<string>, f: string)
    ensures Lines(fs + [f]) == Lines(fs) + Line(f)
  {
    if fs == [] {
      assert fs + [f] == [f] && [f][1..] == [];
      assert Lines([f]) == Line(f) + "";
    } else {
      LinesConcat(fs[1..], f);
      assert (fs + [f])[1..] == fs[1..] + [f];
    }
  }

  method AppendField(payload: string, field: string) returns (out: Option<string>)
    ensures out == if FieldText(field) then Some(payload + Line(field)) else None
  {
    var ok := Utf8Text(field, MAX_FIELD);
    Utf8IsWellFormed(field);
    if !ok {
      return None;
    }
    var encoded := Base64Url(Octets(field));
    out := Some(payload + (encoded + "\n"));
  }

  /** Appends one line per field; fails on a field that is empty, too long or not UTF-8. */
  method AppendFields(payload: string, fields: seq<string>) returns (out: Option<string>)
    ensures out == if FieldTexts(fields) then Some(payload + Lines(fields)) else None
  {
    out := Some(payload);
    assert payload + "" == payload;
    for i := 0 to |fields|
      invariant out == Some(payload + Lines(fields[..i])) && FieldTexts(fields[..i])
    {
      assert fields[..i + 1] == fields[..i] + [fields[i]];
      LinesConcat(fields[..i], fields[i]);
      Assoc(payload, Lines(fields[..i]), Line(fields[i]));
      out := AppendField(out.value, fields[i]);
      if out == None {
        assert fields[i] in fields;
        return;
      }
    }
    assert fields[..|fields|] == fields;
  }

  // ----- The body of an operation -----

  function Element(field: string): string {
    "\"" + Field64(field) + "\""
  }

  /** The generation, if there is one, follows the first field. */
  function Elements(fields: seq<string>, generation: Option<nat>): (elements: seq<string>)
    ensures fields != [] ==> elements != []
  {
    if fields == [] then []
    else if |fields| == 1 && generation.Some? then [Element(fields[0]), Decimal(generation.value)]
    else Elements(fields[..|fields| - 1], generation) + [Element(fields[|fields| - 1])]
  }

  /** The elements of an array, separated by commas. */
  function Join(elements: seq<string>): string {
    if elements == [] then ""
    else if |elements| == 1 then elements[0]
    else Join(elements[..|elements| - 1]) + "," + elements[|elements| - 1]
  }

  function Body(fields: seq<string>, generation: Option<nat>): string {
    "[" + Join(Elements(fields, generation)) + "]"
  }

  lemma {:induction false} JoinAppend(elements: seq<string>, e: string)
    requires elements != []
    ensures Join(elements + [e]) == Join(elements) + "," + e
  {
    assert (elements + [e])[..|elements|] == elements;
  }

  lemma {:induction false} JoinFirst(field: string, generation: Option<nat>)
    ensures Join(Elements([field], generation)) ==
            if generation.Some? then Element(field) + "," + Decimal(generation.value) else Element(field)
  {
    if generation.Some? {
      assert Elements([field], generation)[..1] == [Element(field)];
    } else {
      assert [field][..0] == [];
      assert Elements([field], generation) == [] + [Element(field)];
    }
  }

  lemma {:induction false} JoinNext(fields: seq<string>, i: nat, generation: Option<nat>)
    requires 0 < i < |fields|
    ensures Join(Elements(fields[..i + 1], generation)) ==
            Join(Elements(fields[..i], generation)) + "," + Element(fields[i])
  {
    assert fields[..i + 1][..i] == fields[..i];
    JoinAppend(Elements(fields[..i], generation), Element(fields[i]));
  }

  method AppendElement(candidate: string, field: string, first: bool, generation: Option<nat>) returns (out: string)
    ensures out == candidate + if first then Join(Elements([field], generation)) else "," + Element(field)
  {
    out := candidate;
    if !first {
      out := out + ",";
    }
    out := out + "\"";
    out := AppendUrl64(out, Octets(field));
    out := out + "\"";
    if first {
      JoinFirst(field, generation);
      assert out == candidate + Element(field);
      if generation.Some? {
        out := out + ",";
        out := out + Decimal(generation.value);
        assert out == candidate + (Element(field) + "," + Decimal(generation.value));
      }
    } else {
      assert out == candidate + ("," + Element(field));
    }
  }

  method AllTexts(fields: seq<string>) returns (ok: bool)
    ensures ok <==> FieldTexts(fields)
  {
    for i := 0 to |fields|
      invariant forall k | 0 <= k < i :: FieldText(fields[k])
    {
      ok := Utf8Text(fields[i], MAX_FIELD);
      Utf8IsWellFormed(fields[i]);
      if !ok {
        assert fields[i] in fields;
        return;
      }
    }
    ok := true;
  }

  /** A JSON array of base64url texts and possibly one integer; fails on a field that is not a text. */
  method SemanticBody(fields: seq<string>, generation: Option<nat>) returns (out: Option<string>)
    ensures out.Some? <==> FieldTexts(fields)
    ensures out.Some? ==> out.value == Body(fields, generation)
  {
    var ok := AllTexts(fields);
    if !ok {
      return None;
    }
    var candidate := "[";
    for i := 0 to |fields|
      invariant candidate == "[" + Join(Elements(fields[..i], generation))
    {
      if i == 0 {
        assert fields[..1] == [fields[0]];
      } else {
        JoinNext(fields, i, generation);
        AssocThree("[", Join(Elements(fields[..i], generation)), Element(fields[i]));
      }
      candidate := AppendElement(candidate, fields[i], i == 0, generation);
    }
    assert fields[..|fields|] == fields;
    out := Some(candidate + "]");
  }

  lemma AssocThree(a: string, b: string, c: string)
    ensures a + (b + "," + c) == a + b + ("," + c)
  {
  }

  // ----- The three kinds of text -----

  datatype Operation = Exchange(exchange: ExchangeInput) | Renew(renew: RenewInput)

  predicate ValidOperation(op: Operation) {
    match op
    case Exchange(e) =>
      && IsToken(e.attemptHandle, 32) && IsToken(e.code, 32) && IsToken(e.codeVerifier, 32)
      && IsToken(e.operationId, 32) && FieldText(e.redirectUri)
    case Renew(r) =>
      IsToken(r.bindingId, 16) && IsToken(r.operationId, 32) && 1 <= r.generation <= SAFE_MAX
  }

  /** The rules on the inputs of an operation: widths in bytes, and a generation that a double holds and is not zero. */
  lemma OperationRules(op: Operation)
    ensures op.Exchange? ==>
              var e := op.exchange;
              ValidOperation(op) <==>
                && IsToken(e.operationId, 32) && IsToken(e.codeVerifier, 32) && IsToken(e.code, 32)
                && IsToken(e.attemptHandle, 32) && 1 <= |e.redirectUri| <= 1024 && IsUtf8(e.redirectUri)
    ensures op.Renew? ==>
              var r := op.renew;
              ValidOperation(op) <==>
                0 < r.generation < 9007199254740992 && IsToken(r.operationId, 32) && IsToken(r.bindingId, 16)
  {
  }

  function Fields(op: Operation): seq<string> {
    match op
    case Exchange(e) => [e.attemptHandle, e.code, e.codeVerifier, e.redirectUri, e.operationId]
    case Renew(r) => [r.bindingId, r.operationId]
  }

  function Generation(op: Operation): Option<nat> {
    if op.Renew? then Some(op.renew.generation) else None
  }

  function Purpose(op: Operation): string {
    if op.Renew? then "renew" else "exchange"
  }

  function OperationBody(op: Operation): string {
    Body(Fields(op), Generation(op))
  }

  datatype ProofInput = ProofInput(
    audience: string,
    path: string,
    operationId: string,
    bodySha256: string,
    challengeId: string,
    nonce: string,
    expiresAt: nat
  )

  const EXCHANGE_PATH := "/v2/device-authorizations/exchange"
  const VERB := "POST"
  const RENEW_PATH := "/v2/device-leases/renew"

  predicate ValidProof(p: ProofInput, keyId: string) {
    && KeyIdValid(keyId) && HexDigest(p.bodySha256) && IsToken(p.operationId, 32)
    && IsToken(p.challengeId, 16) && IsToken(p.nonce, 32) && p.expiresAt <= SAFE_MAX
    && KnownPath(p.path)
    && FieldText(p.audience)
  }

  predicate KnownPath(path: string) {
    path == EXCHANGE_PATH || path == RENEW_PATH
  }

  function ProofFields(verb: string, p: ProofInput, keyId: string): seq<string> {
    [p.audience, verb, p.path, keyId, p.operationId, p.bodySha256, p.challengeId, p.nonce]
  }

  datatype ComparisonInput = ComparisonInput(
    attemptHandle: string,
    clientId: string,
    project: string,
    redirectUri: string,
    state: string,
    codeChallenge: string,
    requestedFeature: string
  )

  predicate ValidComparison(c: ComparisonInput, keyId: string) {
    && KeyIdValid(keyId) && IsName(c.clientId, 127) && IsName(c.project, 127) && IsName(c.requestedFeature, 15)
    && IsToken(c.attemptHandle, 32) && IsToken(c.state, 32) && IsToken(c.codeChallenge, 32)
    && FieldText(c.redirectUri)
  }

  function ComparisonFields(c: ComparisonInput, keyId: string): seq<string> {
    [c.attemptHandle, c.clientId, c.project, keyId, c.redirectUri, c.state, c.codeChallenge, c.requestedFeature]
  }

  const OPERATION_DOMAIN := "lcc-device-operation-v1\n"
  const PROOF_DOMAIN := "lcc-device-proof-v2\n"
  const COMPARISON_DOMAIN := "lcc-device-enrollment-comparison-v2\n"

  /** Everything this protocol hashes or signs as a text of its own. */
  datatype Statement =
    | Operate(operation: Operation, keyId: string)
    | Prove(proof: ProofInput, keyId: string)
    | Compare(comparison: ComparisonInput, keyId: string)

  predicate Valid(s: Statement) {
    match s
    case Operate(op, keyId) => KeyIdValid(keyId) && ValidOperation(op)
    case Prove(p, keyId) => ValidProof(p, keyId)
    case Compare(c, keyId) => ValidComparison(c, keyId)
  }

  function Text(s: Statement): string {
    match s
    case Operate(op, keyId) => OPERATION_DOMAIN + Lines([Purpose(op), keyId, OperationBody(op)])
    case Prove(p, keyId) => PROOF_DOMAIN + Lines(ProofFields(VERB, p, keyId)) + (Decimal(p.expiresAt) + "\n")
    case Compare(c, keyId) => COMPARISON_DOMAIN + Lines(ComparisonFields(c, keyId))
  }

  // ----- Building them -----

  lemma OperationFieldTexts(op: Operation)
    requires ValidOperation(op)
    ensures FieldTexts(Fields(op))
  {
    match op
    case Exchange(e) =>
      TokenField(e.attemptHandle, 32);
      TokenField(e.code, 32);
      TokenField(e.codeVerifier, 32);
      TokenField(e.operationId, 32);
    case Renew(r) =>
      TokenField(r.bindingId, 16);
      TokenField(r.operationId, 32);
  }

  /** The body of every valid operation, and of no other. */
  method BoundOperationBody(op: Operation) returns (out: Option<string>)
    ensures out == if ValidOperation(op) then Some(OperationBody(op)) else None
  {
    if !ValidOperation(op) {
      return None;
    }
    OperationFieldTexts(op);
    out := SemanticBody(Fields(op), Generation(op));
  }

  method BoundOperationDigestInput(op: Operation, keyId: string) returns (out: Option<string>)
    ensures out == if Valid(Operate(op, keyId)) then Some(Text(Operate(op, keyId))) else None
  {
    if !KeyIdValid(keyId) {
      return None;
    }
    var semantic := BoundOperationBody(op);
    if semantic.None? {
      return None;
    }
    var candidate := AppendLine(OPERATION_DOMAIN, Purpose(op));
    candidate := AppendLine(candidate, keyId);
    candidate := AppendLine(candidate, semantic.value);
    ThreeLines(OPERATION_DOMAIN, Purpose(op), keyId, semantic.value);
    out := Some(candidate);
  }

  method AppendLine(prefix: string, field: string) returns (out: string)
    ensures out == prefix + Line(field)
  {
    out := AppendUrl64(prefix, Octets(field));
    out := out + "\n";
  }

  lemma ThreeLines(domain: string, a: string, b: string, c: string)
    ensures domain + Lines([a, b, c]) == domain + Line(a) + Line(b) + Line(c)
  {
    LinesConcat([], a);
    LinesConcat([a], b);
    LinesConcat([a, b], c);
    assert [] + [a] == [a] && [a] + [b] == [a, b] && [a, b] + [c] == [a, b, c];
    assert Lines([]) + Line(a) == Line(a);
  }

  lemma ProofFieldTexts(verb: string, p: ProofInput, keyId: string)
    requires KeyIdValid(keyId) && HexDigest(p.bodySha256) && IsToken(p.operationId, 32)
    requires IsToken(p.challengeId, 16) && IsToken(p.nonce, 32)
    requires IsAscii(verb) && 0 < |verb| <= MAX_FIELD && IsAscii(p.path) && 0 < |p.path| <= MAX_FIELD
    ensures FieldTexts(ProofFields(verb, p, keyId)) <==> FieldText(p.audience)
  {
    AsciiField(verb);
    AsciiField(p.path);
    KeyIdField(keyId);
    TokenField(p.operationId, 32);
    AsciiField(p.bodySha256);
    TokenField(p.challengeId, 16);
    TokenField(p.nonce, 32);
    assert p.audience in ProofFields(verb, p, keyId);
  }

  method BoundProofInput(p: ProofInput, keyId: string) returns (out: Option<string>)
    ensures out == if ValidProof(p, keyId) then Some(Text(Prove(p, keyId))) else None
  {
    if !KeyIdValid(keyId) || !HexDigest(p.bodySha256) || !IsToken(p.operationId, 32) || !IsToken(p.challengeId, 16)
       || !IsToken(p.nonce, 32) || p.expiresAt > SAFE_MAX || !KnownPath(p.path)
    {
      return None;
    }
    KnownPathIsAscii(p.path);
    out := AppendProofLines(VERB, p, keyId);
  }

  lemma KnownPathIsAscii(path: string)
    requires KnownPath(path)
    ensures IsAscii(path) && 0 < |path| <= MAX_FIELD
    ensures IsAscii(VERB) && 0 < |VERB| <= MAX_FIELD
  {
  }

  method AppendProofLines(verb: string, p: ProofInput, keyId: string) returns (out: Option<string>)
    requires KeyIdValid(keyId) && HexDigest(p.bodySha256) && IsToken(p.operationId, 32)
    requires IsToken(p.challengeId, 16) && IsToken(p.nonce, 32)
    requires IsAscii(verb) && 0 < |verb| <= MAX_FIELD && IsAscii(p.path) && 0 < |p.path| <= MAX_FIELD
    ensures out == if FieldText(p.audience)
                   then Some(PROOF_DOMAIN + Lines(ProofFields(verb, p, keyId)) + (Decimal(p.expiresAt) + "\n"))
                   else None
  {
    ProofFieldTexts(verb, p, keyId);
    out := AppendFields(PROOF_DOMAIN, ProofFields(verb, p, keyId));
    if out.Some? {
      out := Some(out.value + (Decimal(p.expiresAt) + "\n"));
    }
  }

  lemma ComparisonFieldTexts(c: ComparisonInput, keyId: string)
    requires KeyIdValid(keyId) && IsName(c.clientId, 127) && IsName(c.project, 127) && IsName(c.requestedFeature, 15)
    requires IsToken(c.attemptHandle, 32) && IsToken(c.state, 32) && IsToken(c.codeChallenge, 32)
    ensures FieldTexts(ComparisonFields(c, keyId)) <==> FieldText(c.redirectUri)
  {
    TokenField(c.attemptHandle, 32);
    AsciiField(c.clientId);
    AsciiField(c.project);
    KeyIdField(keyId);
    TokenField(c.state, 32);
    TokenField(c.codeChallenge, 32);
    AsciiField(c.requestedFeature);
    assert c.redirectUri in ComparisonFields(c, keyId);
  }

  method EnrollmentComparisonInput(c: ComparisonInput, keyId: string) returns (out: Option<string>)
    ensures out == if ValidComparison(c, keyId) then Some(Text(Compare(c, keyId))) else None
  {
    if !KeyIdValid(keyId) || !IsName(c.clientId, 127) || !IsName(c.project, 127) || !IsName(c.requestedFeature, 15)
       || !IsToken(c.attemptHandle, 32) || !IsToken(c.state, 32) || !IsToken(c.codeChallenge, 32)
    {
      return None;
    }
    ComparisonFieldTexts(c, keyId);
    out := AppendFields(COMPARISON_DOMAIN, ComparisonFields(c, keyId));
  }

  // ----- Every text determines what it was built from -----

  predicate NoCommas(elements: seq<string>) {
    elements == [] || (',' !in elements[|elements| - 1] && NoCommas(elements[..|elements| - 1]))
  }

  lemma {:induction false} JoinDetermines(es: seq<string>, fs: seq<string>)
    requires es != [] && fs != [] && Join(es) == Join(fs) && NoCommas(es) && NoCommas(fs)
    ensures es == fs
  {
    var e, f := es[|es| - 1], fs[|fs| - 1];
    if |es| > 1 && |fs| > 1 {
      CutLast(Join(es[..|es| - 1]), e, Join(fs[..|fs| - 1]), f);
      JoinDetermines(es[..|es| - 1], fs[..|fs| - 1]);
      assert es == es[..|es| - 1] + [e] && fs == fs[..|fs| - 1] + [f];
    } else if |es| > 1 {
      HasComma(Join(es[..|es| - 1]), e);
    } else if |fs| > 1 {
      HasComma(Join(fs[..|fs| - 1]), f);
    }
  }

  lemma HasComma(x: string, e: string)
    ensures ',' in x + "," + e
  {
    assert (x + "," + e)[|x|] == ',';
  }

  /** The last separator ends what precedes it. */
  lemma CutLast(x: string, e: string, y: string, f: string)
    requires ',' !in e && ',' !in f && x + "," + e == y + "," + f
    ensures x == y && e == f
  {
    var left, right := x + "," + e, y + "," + f;
    assert left[|x|] == right[|y|] == ',';
    assert forall i | |x| < i < |left| :: left[i] in e;
    assert forall i | |y| < i < |right| :: right[i] in f;
    assert x == left[..|x|] && y == right[..|y|];
    assert e == left[|x| + 1..] && f == right[|y| + 1..];
  }

  lemma {:induction false} DigitsAreNot(n: nat, c: char)
    requires !IsDigit(c)
    ensures c !in Decimal(n)
  {
  }

  lemma {:induction false} ElementsHaveNoCommas(fields: seq<string>, generation: Option<nat>)
    ensures NoCommas(Elements(fields, generation))
  {
    if fields != [] {
      var last := fields[|fields| - 1];
      NoSeparator(last, ',');
      if |fields| == 1 && generation.Some? {
        DigitsAreNot(generation.value, ',');
        assert NoCommas([Element(last)]);
        assert Elements(fields, generation)[..1] == [Element(last)];
      } else {
        ElementsHaveNoCommas(fields[..|fields| - 1], generation);
        assert Elements(fields, generation)[..|Elements(fields, generation)| - 1] ==
               Elements(fields[..|fields| - 1], generation);
      }
    }
  }

  lemma ElementDetermines(f: string, g: string)
    requires ByteText(f) && ByteText(g) && Element(f) == Element(g)
    ensures f == g
  {
    assert Field64(f) == Element(f)[1..|Element(f)| - 1] && Field64(g) == Element(g)[1..|Element(g)| - 1];
    Field64Injective(f, g);
  }

  lemma {:induction false} ElementsAppend(fields: seq<string>, f: string)
    requires fields != []
    ensures Elements(fields + [f], None) == Elements(fields, None) + [Element(f)]
  {
    assert (fields + [f])[..|fields|] == fields;
  }

  lemma ExchangeElements(e: ExchangeInput)
    ensures Elements(Fields(Exchange(e)), None) ==
            [Element(e.attemptHandle), Element(e.code), Element(e.codeVerifier), Element(e.redirectUri),
             Element(e.operationId)]
  {
    var a, b, c, d := e.attemptHandle, e.code, e.codeVerifier, e.redirectUri;
    assert [a][..0] == [];
    assert Elements([a], None) == [Element(a)];
    ElementsAppend([a], b);
    ElementsAppend([a] + [b], c);
    ElementsAppend([a] + [b] + [c], d);
    ElementsAppend([a] + [b] + [c] + [d], e.operationId);
    assert [a] + [b] + [c] + [d] + [e.operationId] == Fields(Exchange(e));
  }

  lemma RenewElements(r: RenewInput)
    ensures Elements(Fields(Renew(r)), Some(r.generation)) ==
            [Element(r.bindingId), Decimal(r.generation), Element(r.operationId)]
  {
    assert Fields(Renew(r))[..1] == [r.bindingId];
  }

  lemma SameBody(op: Operation, other: Operation)
    requires ValidOperation(op) && ValidOperation(other) && OperationBody(op) == OperationBody(other)
    ensures op == other
  {
    var es, fs := Elements(Fields(op), Generation(op)), Elements(Fields(other), Generation(other));
    assert Join(es) == OperationBody(op)[1..|OperationBody(op)| - 1];
    assert Join(fs) == OperationBody(other)[1..|OperationBody(other)| - 1];
    ElementsHaveNoCommas(Fields(op), Generation(op));
    ElementsHaveNoCommas(Fields(other), Generation(other));
    JoinDetermines(es, fs);
    SameElements(op, other);
  }

  /** The body of an operation determines the operation. */
  lemma BodyDetermines(op: Operation, other: Operation)
    ensures ValidOperation(op) && ValidOperation(other) ==> (OperationBody(op) == OperationBody(other) <==> op == other)
  {
    if ValidOperation(op) && ValidOperation(other) && OperationBody(op) == OperationBody(other) {
      SameBody(op, other);
    }
  }

  lemma SameElements(op: Operation, other: Operation)
    requires ValidOperation(op) && ValidOperation(other)
    requires Elements(Fields(op), Generation(op)) == Elements(Fields(other), Generation(other))
    ensures op == other
  {
    OperationFieldTexts(op);
    OperationFieldTexts(other);
    FieldTextsAreBytes(Fields(op));
    FieldTextsAreBytes(Fields(other));
    match op
    case Exchange(e) =>
      ExchangeElements(e);
      if other.Exchange? {
        ExchangeElements(other.exchange);
        SameExchange(e, other.exchange);
      } else {
        RenewElements(other.renew);
      }
    case Renew(r) =>
      RenewElements(r);
      if other.Renew? {
        RenewElements(other.renew);
        SameRenew(r, other.renew);
      } else {
        ExchangeElements(other.exchange);
      }
  }

  lemma SameExchange(e: ExchangeInput, f: ExchangeInput)
    requires ByteTexts(Fields(Exchange(e))) && ByteTexts(Fields(Exchange(f)))
    requires Element(e.attemptHandle) == Element(f.attemptHandle) && Element(e.code) == Element(f.code)
    requires Element(e.codeVerifier) == Element(f.codeVerifier) && Element(e.redirectUri) == Element(f.redirectUri)
    requires Element(e.operationId) == Element(f.operationId)
    ensures e == f
  {
    ElementDetermines(e.attemptHandle, f.attemptHandle);
    ElementDetermines(e.code, f.code);
    ElementDetermines(e.codeVerifier, f.codeVerifier);
    ElementDetermines(e.redirectUri, f.redirectUri);
    ElementDetermines(e.operationId, f.operationId);
  }

  lemma SameRenew(r: RenewInput, q: RenewInput)
    requires ByteTexts(Fields(Renew(r))) && ByteTexts(Fields(Renew(q)))
    requires Element(r.bindingId) == Element(q.bindingId) && Element(r.operationId) == Element(q.operationId)
    requires Decimal(r.generation) == Decimal(q.generation)
    ensures r == q
  {
    ElementDetermines(r.bindingId, q.bindingId);
    ElementDetermines(r.operationId, q.operationId);
    DecimalInjective(r.generation, q.generation);
  }

  predicate AllAscii(elements: seq<string>) {
    elements == [] || (IsAscii(elements[|elements| - 1]) && AllAscii(elements[..|elements| - 1]))
  }

  lemma ElementIsAscii(field: string)
    ensures IsAscii(Element(field))
  {
    Url64Chars(Octets(field));
  }

  lemma {:induction false} ElementsAreAscii(fields: seq<string>, generation: Option<nat>)
    ensures AllAscii(Elements(fields, generation))
  {
    if fields != [] {
      var last := fields[|fields| - 1];
      ElementIsAscii(last);
      var es := Elements(fields, generation);
      if |fields| == 1 && generation.Some? {
        assert es[..1] == [Element(last)];
        assert AllAscii([Element(last)]);
      } else {
        ElementsAreAscii(fields[..|fields| - 1], generation);
        assert es[..|es| - 1] == Elements(fields[..|fields| - 1], generation);
      }
    }
  }

  lemma {:induction false} JoinIsAscii(elements: seq<string>)
    requires AllAscii(elements)
    ensures IsAscii(Join(elements))
  {
    if |elements| > 1 {
      JoinIsAscii(elements[..|elements| - 1]);
    }
  }

  lemma BodyIsAscii(op: Operation)
    ensures IsAscii(OperationBody(op))
  {
    ElementsAreAscii(Fields(op), Generation(op));
    JoinIsAscii(Elements(Fields(op), Generation(op)));
  }

  function Kind(s: Statement): char {
    match s
    case Operate(_, _) => 'o'
    case Prove(_, _) => 'p'
    case Compare(_, _) => 'e'
  }

  lemma DomainSeparates(s: Statement)
    ensures |Text(s)| > 11 && Text(s)[11] == Kind(s)
  {
    match s
    case Operate(op, keyId) =>
      DomainAt(OPERATION_DOMAIN, Lines([Purpose(op), keyId, OperationBody(op)]));
    case Prove(p, keyId) =>
      Assoc(PROOF_DOMAIN, Lines(ProofFields(VERB, p, keyId)), Decimal(p.expiresAt) + "\n");
      DomainAt(PROOF_DOMAIN, Lines(ProofFields(VERB, p, keyId)) + (Decimal(p.expiresAt) + "\n"));
    case Compare(c, keyId) =>
      DomainAt(COMPARISON_DOMAIN, Lines(ComparisonFields(c, keyId)));
  }

  lemma DomainAt(domain: string, rest: string)
    requires |domain| > 11
    ensures |domain + rest| > 11 && (domain + rest)[11] == domain[11]
  {
  }

  lemma SameSuffix(domain: string, a: string, b: string)
    requires domain + a == domain + b
    ensures a == b
  {
    assert a == (domain + a)[|domain|..] && b == (domain + b)[|domain|..];
  }

  lemma {:induction false} SameLines(domain: string, fs: seq<string>, a: string, gs: seq<string>, b: string)
    requires ByteTexts(fs) && ByteTexts(gs) && |fs| == |gs|
    requires domain + Lines(fs) + a == domain + Lines(gs) + b
    ensures fs == gs && a == b
  {
    Assoc(domain, Lines(fs), a);
    Assoc(domain, Lines(gs), b);
    SameSuffix(domain, Lines(fs) + a, Lines(gs) + b);
    LinesDetermine(fs, a, gs, b);
  }

  lemma OperateDetermines(op: Operation, keyId: string, other: Operation, otherId: string)
    requires Valid(Operate(op, keyId)) && Valid(Operate(other, otherId))
    requires Text(Operate(op, keyId)) == Text(Operate(other, otherId))
    ensures op == other && keyId == otherId
  {
    OperateParts(op, keyId);
    OperateParts(other, otherId);
    SameThree(Purpose(op), keyId, OperationBody(op), Purpose(other), otherId, OperationBody(other));
    SameBody(op, other);
  }

  lemma OperateParts(op: Operation, keyId: string)
    requires KeyIdValid(keyId)
    ensures ByteText(Purpose(op)) && ByteText(keyId) && ByteText(OperationBody(op))
  {
    KeyIdField(keyId);
    BodyIsAscii(op);
  }

  lemma SameThree(a: string, b: string, c: string, a': string, b': string, c': string)
    requires ByteText(a) && ByteText(b) && ByteText(c) && ByteText(a') && ByteText(b') && ByteText(c')
    requires OPERATION_DOMAIN + Lines([a, b, c]) == OPERATION_DOMAIN + Lines([a', b', c'])
    ensures a == a' && b == b' && c == c'
  {
    var fs, gs := [a, b, c], [a', b', c'];
    SameSuffix(OPERATION_DOMAIN, Lines(fs), Lines(gs));
    LinesDetermine(fs, "", gs, "");
    assert fs[0] == gs[0] && fs[1] == gs[1] && fs[2] == gs[2];
  }

  lemma ProveDetermines(p: ProofInput, keyId: string, q: ProofInput, otherId: string)
    requires ValidProof(p, keyId) && ValidProof(q, otherId)
    requires Text(Prove(p, keyId)) == Text(Prove(q, otherId))
    ensures p == q && keyId == otherId
  {
    KnownPathIsAscii(p.path);
    KnownPathIsAscii(q.path);
    SameProof(VERB, p, keyId, q, otherId);
  }

  lemma SameProof(verb: string, p: ProofInput, keyId: string, q: ProofInput, otherId: string)
    requires KeyIdValid(keyId) && HexDigest(p.bodySha256) && IsToken(p.operationId, 32)
    requires IsToken(p.challengeId, 16) && IsToken(p.nonce, 32) && FieldText(p.audience)
    requires KeyIdValid(otherId) && HexDigest(q.bodySha256) && IsToken(q.operationId, 32)
    requires IsToken(q.challengeId, 16) && IsToken(q.nonce, 32) && FieldText(q.audience)
    requires IsAscii(verb) && 0 < |verb| <= MAX_FIELD
    requires IsAscii(p.path) && 0 < |p.path| <= MAX_FIELD && IsAscii(q.path) && 0 < |q.path| <= MAX_FIELD
    requires PROOF_DOMAIN + Lines(ProofFields(verb, p, keyId)) + (Decimal(p.expiresAt) + "\n") ==
             PROOF_DOMAIN + Lines(ProofFields(verb, q, otherId)) + (Decimal(q.expiresAt) + "\n")
    ensures p == q && keyId == otherId
  {
    ProofFieldTexts(verb, p, keyId);
    ProofFieldTexts(verb, q, otherId);
    FieldTextsAreBytes(ProofFields(verb, p, keyId));
    FieldTextsAreBytes(ProofFields(verb, q, otherId));
    var a, b := Decimal(p.expiresAt), Decimal(q.expiresAt);
    SameLines(PROOF_DOMAIN, ProofFields(verb, p, keyId), a + "\n", ProofFields(verb, q, otherId), b + "\n");
    assert a == (a + "\n")[..|a + "\n"| - 1] && b == (b + "\n")[..|b + "\n"| - 1];
    DecimalInjective(p.expiresAt, q.expiresAt);
    ProofFieldsDetermine(verb, p, keyId, q, otherId);
  }

  lemma ProofFieldsDetermine(verb: string, p: ProofInput, keyId: string, q: ProofInput, otherId: string)
    requires ProofFields(verb, p, keyId) == ProofFields(verb, q, otherId) && p.expiresAt == q.expiresAt
    ensures p == q && keyId == otherId
  {
    var fs, gs := ProofFields(verb, p, keyId), ProofFields(verb, q, otherId);
    assert fs[0] == gs[0] && fs[2] == gs[2] && fs[3] == gs[3] && fs[4] == gs[4];
    assert fs[5] == gs[5] && fs[6] == gs[6] && fs[7] == gs[7];
  }

  lemma CompareDetermines(c: ComparisonInput, keyId: string, d: ComparisonInput, otherId: string)
    requires ValidComparison(c, keyId) && ValidComparison(d, otherId)
    requires Text(Compare(c, keyId)) == Text(Compare(d, otherId))
    ensures c == d && keyId == otherId
  {
    var fs, gs := ComparisonFields(c, keyId), ComparisonFields(d, otherId);
    ComparisonFieldTexts(c, keyId);
    ComparisonFieldTexts(d, otherId);
    FieldTextsAreBytes(fs);
    FieldTextsAreBytes(gs);
    SameSuffix(COMPARISON_DOMAIN, Lines(fs), Lines(gs));
    LinesDetermine(fs, "", gs, "");
    assert fs[0] == gs[0] && fs[1] == gs[1] && fs[2] == gs[2] && fs[3] == gs[3];
    assert fs[4] == gs[4] && fs[5] == gs[5] && fs[6] == gs[6] && fs[7] == gs[7];
  }

  lemma SameText(s: Statement, t: Statement)
    requires Valid(s) && Valid(t) && Text(s) == Text(t)
    ensures s == t
  {
    DomainSeparates(s);
    DomainSeparates(t);
    match s
    case Operate(op, keyId) => OperateDetermines(op, keyId, t.operation, t.keyId);
    case Prove(p, keyId) => ProveDetermines(p, keyId, t.proof, t.keyId);
    case Compare(c, keyId) => CompareDetermines(c, keyId, t.comparison, t.keyId);
  }

  /** No two statements share a text: neither two of one kind nor two of different kinds. */
  lemma TextDetermines(s: Statement, t: Statement)
    ensures Valid(s) && Valid(t) ==> (Text(s) == Text(t) <==> s == t)
  {
    if Valid(s) && Valid(t) && Text(s) == Text(t) {
      SameText(s, t);
    }
  }

  // ----- What stands in each line -----

  function Encoded(fields: seq<string>): (lines: seq<string>)
    ensures |lines| == |fields| && forall i | 0 <= i < |fields| :: lines[i] == Field64(fields[i])
  {
    seq(|fields|, i requires 0 <= i < |fields| => Field64(fields[i]))
  }

  lemma EncodedCons(fields: seq<string>)
    requires fields != []
    ensures Encoded(fields) == [Field64(fields[0])] + Encoded(fields[1..])
  {
  }

  lemma FirstLine(line: string, more: string, rest: string)
    ensures line + "\n" + more + rest == line + ['\n'] + (more + rest)
  {
  }

  lemma {:induction false} NoLines(rest: string)
    ensures SplitAt(Lines([]) + rest, '\n') == Encoded([]) + SplitAt(rest, '\n')
  {
    assert "" + rest == rest;
  }

  lemma {:induction false} SplitLine(field: string, more: string, rest: string)
    ensures SplitAt(Line(field) + more + rest, '\n') == [Field64(field)] + SplitAt(more + rest, '\n')
  {
    NoSeparator(field, '\n');
    FirstLine(Field64(field), more, rest);
    SplitFirst(Field64(field), '\n', more + rest);
  }

  lemma SeqAssoc(x: string, xs: seq<string>, ys: seq<string>)
    ensures [x] + (xs + ys) == [x] + xs + ys
  {
  }

  lemma {:induction false} LinesSplit(fields: seq<string>, rest: string)
    ensures SplitAt(Lines(fields) + rest, '\n') == Encoded(fields) + SplitAt(rest, '\n')
  {
    if fields == [] {
      NoLines(rest);
    } else {
      var field, more := fields[0], fields[1..];
      SplitLine(field, Lines(more), rest);
      LinesSplit(more, rest);
      EncodedCons(fields);
      SeqAssoc(Field64(field), Encoded(more), SplitAt(rest, '\n'));
    }
  }

  /** Eight lines between a domain and what follows. */
  lemma {:induction false} EightSplit(line: string, a: string, b: string, c: string, d: string, e: string,
                                      f: string, g: string, h: string, rest: string)
    requires '\n' !in line
    ensures SplitAt(line + "\n" + Lines([a, b, c, d, e, f, g, h]) + rest, '\n') ==
            [line, Field64(a), Field64(b), Field64(c), Field64(d), Field64(e), Field64(f), Field64(g), Field64(h)]
            + SplitAt(rest, '\n')
  {
    DomainSplit(line, [a, b, c, d, e, f, g, h], rest);
    SeqAssoc(line, Encoded([a, b, c, d, e, f, g, h]), SplitAt(rest, '\n'));
    EightEncoded(line, a, b, c, d, e, f, g, h);
  }

  lemma EightEncoded(line: string, a: string, b: string, c: string, d: string, e: string, f: string, g: string,
                     h: string)
    ensures [line] + Encoded([a, b, c, d, e, f, g, h]) ==
            [line, Field64(a), Field64(b), Field64(c), Field64(d), Field64(e), Field64(f), Field64(g), Field64(h)]
  {
  }

  lemma {:induction false} DomainSplit(line: string, fields: seq<string>, rest: string)
    requires '\n' !in line
    ensures SplitAt(line + "\n" + Lines(fields) + rest, '\n') == [line] + (Encoded(fields) + SplitAt(rest, '\n'))
  {
    LinesSplit(fields, rest);
    FirstLine(line, Lines(fields), rest);
    SplitFirst(line, '\n', Lines(fields) + rest);
  }

  /** The body of a renewal: binding, generation and operation. */
  lemma RenewLayout(r: RenewInput)
    ensures OperationBody(Renew(r)) ==
            "[" + ("\"" + Field64(r.bindingId) + "\"" + "," + Decimal(r.generation) + ","
                   + ("\"" + Field64(r.operationId) + "\"")) + "]"
  {
    var a, b, c := Element(r.bindingId), Decimal(r.generation), Element(r.operationId);
    RenewElements(r);
    JoinOne(a);
    JoinAppend([a], b);
    JoinAppend([a, b], c);
    assert [a] + [b] == [a, b] && [a, b] + [c] == [a, b, c];
  }

  lemma JoinOne(e: string)
    ensures Join([e]) == e
  {
  }

  /** The body of an exchange: attempt, code, verifier, redirection and operation. */
  lemma ExchangeLayout(e: ExchangeInput)
    ensures OperationBody(Exchange(e)) ==
            "[" + ("\"" + Field64(e.attemptHandle) + "\"" + "," + ("\"" + Field64(e.code) + "\"") + ","
                   + ("\"" + Field64(e.codeVerifier) + "\"") + "," + ("\"" + Field64(e.redirectUri) + "\"") + ","
                   + ("\"" + Field64(e.operationId) + "\"")) + "]"
  {
    ExchangeElements(e);
    JoinFive(Element(e.attemptHandle), Element(e.code), Element(e.codeVerifier), Element(e.redirectUri),
             Element(e.operationId));
  }

  lemma JoinFive(a: string, b: string, c: string, d: string, e: string)
    ensures Join([a, b, c, d, e]) == a + "," + b + "," + c + "," + d + "," + e
  {
    JoinOne(a);
    JoinAppend([a], b);
    JoinAppend([a, b], c);
    JoinAppend([a, b, c], d);
    JoinAppend([a, b, c, d], e);
    assert [a] + [b] == [a, b] && [a, b] + [c] == [a, b, c] && [a, b, c] + [d] == [a, b, c, d];
    assert [a, b, c, d] + [e] == [a, b, c, d, e];
  }

  /** The lines of a digest input. */
  lemma OperationLayout(op: Operation, keyId: string)
    ensures SplitAt(Text(Operate(op, keyId)), '\n') ==
            ["lcc-device-operation-v1", Field64(if op.Renew? then "renew" else "exchange"), Field64(keyId),
             Field64(OperationBody(op)), ""]
  {
    var fields := [if op.Renew? then "renew" else "exchange", keyId, OperationBody(op)];
    DomainLines();
    DomainSplit("lcc-device-operation-v1", fields, "");
    assert Encoded(fields) == [Field64(fields[0]), Field64(keyId), Field64(OperationBody(op))];
    assert OPERATION_DOMAIN + Lines(fields) + "" == Text(Operate(op, keyId));
  }

  /** The lines of a proof input; only two paths are proved for. */
  lemma ProofLayout(p: ProofInput, keyId: string)
    ensures SplitAt(Text(Prove(p, keyId)), '\n') ==
            ["lcc-device-proof-v2", Field64(p.audience), Field64("POST"), Field64(p.path), Field64(keyId),
             Field64(p.operationId), Field64(p.bodySha256), Field64(p.challengeId), Field64(p.nonce),
             Decimal(p.expiresAt), ""]
    ensures ValidProof(p, keyId) ==> p.path in {"/v2/device-authorizations/exchange", "/v2/device-leases/renew"}
  {
    var number := Decimal(p.expiresAt);
    DomainLines();
    EightSplit("lcc-device-proof-v2", p.audience, "POST", p.path, keyId, p.operationId, p.bodySha256, p.challengeId,
               p.nonce, number + "\n");
    NumberSplit(p.expiresAt);
  }

  lemma {:induction false} NumberSplit(n: nat)
    ensures SplitAt(Decimal(n) + "\n", '\n') == [Decimal(n), ""]
  {
    DigitsAreNot(n, '\n');
    SplitFirst(Decimal(n), '\n', "");
    assert Decimal(n) + ['\n'] + "" == Decimal(n) + "\n";
  }

  lemma DomainLines()
    ensures OPERATION_DOMAIN == "lcc-device-operation-v1" + "\n" && '\n' !in "lcc-device-operation-v1"
    ensures PROOF_DOMAIN == "lcc-device-proof-v2" + "\n" && '\n' !in "lcc-device-proof-v2"
    ensures COMPARISON_DOMAIN == "lcc-device-enrollment-comparison-v2" + "\n"
    ensures '\n' !in "lcc-device-enrollment-comparison-v2"
  {
  }

  /** The lines of a comparison input. */
  lemma ComparisonLayout(c: ComparisonInput, keyId: string)
    ensures SplitAt(Text(Compare(c, keyId)), '\n') ==
            ["lcc-device-enrollment-comparison-v2", Field64(c.attemptHandle), Field64(c.clientId), Field64(c.project),
             Field64(keyId), Field64(c.redirectUri), Field64(c.state), Field64(c.codeChallenge),
             Field64(c.requestedFeature), ""]
  {
    DomainLines();
    EightSplit("lcc-device-enrollment-comparison-v2", c.attemptHandle, c.clientId, c.project, keyId, c.redirectUri,
               c.state, c.codeChallenge, c.requestedFeature, "");
    assert COMPARISON_DOMAIN + Lines(ComparisonFields(c, keyId)) + "" == Text(Compare(c, keyId));
  }
}
