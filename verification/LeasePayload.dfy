/**
 The signed payload of a lease and its envelope (`bound_lease.cpp`). The reader accepts one payload for each set of
 claims and one token for each payload and signature, so what was decoded determines what was signed.
 */
module LeasePayload {
  import opened Wrappers
  import opened Texts
  import opened Base64
  import opened Utf8
  import opened TextRules
  import opened SafeIntegers
  import opened UrlFields
  import Lease

  type Claims = Lease.ClaimFields

  const FIELD_NAMES: seq<string> := [
    "version", "purpose", "key-id", "issuer", "audience", "project", "feature", "license-fingerprint", "binding-id",
    "device-key-id", "generation", "revocation-seq", "lease-id", "operation-id", "issued-at", "renew-after",
    "expires-at"
  ]

  // ----- Lines of names and values -----

  predicate NoBreaks(values: seq<string>) {
    values == [] || ('\n' !in values[0] && NoBreaks(values[1..]))
  }

  function Line(name: string, value: string): string {
    name + "=" + value + "\n"
  }

  function Printed(names: seq<string>, values: seq<string>): string
    requires |names| == |values|
  {
    if names == [] then "" else Line(names[0], values[0]) + Printed(names[1..], values[1..])
  }

  /** The value of a first line with this name, and the text after the line. */
  datatype Cut = Cut(value: string, rest: string)

  function CutLine(s: string, name: string): (r: Option<Cut>) {
    var end := Find(s, '\n');
    var prefix := name + "=";
    if end == |s| || end < |prefix| || s[..|prefix|] != prefix then None
    else Some(Cut(s[|prefix|..end], s[end + 1..]))
  }

  lemma CutOfLine(name: string, value: string, rest: string)
    requires '\n' !in name && '\n' !in value
    ensures CutLine(Line(name, value) + rest, name) == Some(Cut(value, rest))
  {
    var prefix := name + "=";
    var s := Line(name, value) + rest;
    FindFirst(prefix + value, rest, '\n');
    assert s == prefix + value + ['\n'] + rest;
    assert s[..|prefix|] == prefix && s[|prefix|..|prefix + value|] == value && s[|prefix + value| + 1..] == rest;
  }

  lemma LineOfCut(s: string, name: string)
    requires CutLine(s, name).Some?
    ensures var cut := CutLine(s, name).value; s == Line(name, cut.value) + cut.rest && '\n' !in cut.value
  {
    var end, n := Find(s, '\n'), |name| + 1;
    assert forall k | 0 <= k < end - n :: s[n..end][k] == s[n + k];
    assert s == s[..n] + s[n..end] + [s[end]] + s[end + 1..];
  }

  function Joined(found: seq<string>, more: Option<seq<string>>): Option<seq<string>> {
    if more.None? then None else Some(found + more.value)
  }

  lemma JoinedTwice(found: seq<string>, value: string, more: Option<seq<string>>)
    ensures Joined(found, Joined([value], more)) == Joined(found + [value], more)
    ensures Joined([], more) == more
  {
    if more.Some? {
      assert found + ([value] + more.value) == found + [value] + more.value;
      assert [] + more.value == more.value;
    }
  }

  /** The values of lines with these names. */
  function Split(s: string, names: seq<string>): (r: Option<seq<string>>)
    ensures r.Some? ==> |r.value| == |names|
    decreases |names|
  {
    if names == [] then if s == "" then Some([]) else None
    else
      var cut := CutLine(s, names[0]);
      if cut.None? then None else Joined([cut.value.value], Split(cut.value.rest, names[1..]))
  }

  lemma {:induction false} SplitOfPrinted(names: seq<string>, values: seq<string>)
    requires |names| == |values| && NoBreaks(names) && NoBreaks(values)
    ensures Split(Printed(names, values), names) == Some(values)
  {
    if names != [] {
      CutOfLine(names[0], values[0], Printed(names[1..], values[1..]));
      SplitOfPrinted(names[1..], values[1..]);
      assert [values[0]] + values[1..] == values;
    }
  }

  lemma {:induction false} PrintedOfSplit(s: string, names: seq<string>)
    requires Split(s, names).Some?
    ensures NoBreaks(Split(s, names).value) && Printed(names, Split(s, names).value) == s
    decreases |names|
  {
    if names != [] {
      LineOfCut(s, names[0]);
      var cut := CutLine(s, names[0]).value;
      PrintedOfSplit(cut.rest, names[1..]);
      assert Split(s, names).value[1..] == Split(cut.rest, names[1..]).value;
    }
  }

  /** One line per name, in order, and nothing after the last. */
  method SplitFields(payload: string, names: seq<string>) returns (values: Option<seq<string>>)
    ensures values == Split(payload, names)
  {
    var found: seq<string> := [];
    var offset := 0;
    assert payload[0..] == payload && names[0..] == names;
    JoinedTwice([], "", Split(payload, names));
    for i := 0 to |names|
      invariant offset <= |payload|
      invariant Split(payload, names) == Joined(found, Split(payload[offset..], names[i..]))
    {
      var cut;
      cut, offset := NextLine(payload, offset, names[i]);
      if cut.None? {
        return None;
      }
      assert names[i..][1..] == names[i + 1..];
      JoinedTwice(found, cut.value, Split(payload[offset..], names[i + 1..]));
      found := found + [cut.value];
    }
    if offset != |payload| {
      return None;
    }
    assert found + [] == found;
    values := Some(found);
  }

  method NextLine(payload: string, offset: nat, name: string) returns (value: Option<string>, next: nat)
    requires offset <= |payload|
    ensures next <= |payload|
    ensures value.None? ==> CutLine(payload[offset..], name).None?
    ensures value.Some? ==> CutLine(payload[offset..], name) == Some(Cut(value.value, payload[next..]))
  {
    value, next := None, offset;
    var end := offset + Find(payload[offset..], '\n');
    var prefix := name + "=";
    if end == |payload| || end - offset < |prefix| || payload[offset..offset + |prefix|] != prefix {
      assert |prefix| <= |payload| - offset ==> payload[offset..][..|prefix|] == payload[offset..offset + |prefix|];
      return;
    }
    ghost var rest := payload[offset..];
    assert rest[..|prefix|] == payload[offset..offset + |prefix|];
    assert rest[|prefix|..end - offset] == payload[offset + |prefix|..end];
    assert rest[end - offset + 1..] == payload[end + 1..];
    value, next := Some(payload[offset + |prefix|..end]), end + 1;
  }

  // ----- Claims -----

  const PURPOSE := "device-lease"
  const MAX_PAYLOAD := 4096

  predicate Acceptable(c: Claims) {
    && KeyIdValid(c.signerKeyId) && KeyIdValid(c.deviceKeyId)
    && IsName(c.project, 127) && IsName(c.feature, 15) && HexDigest(c.licenseFingerprint)
    && IsToken(c.bindingId, 16) && IsToken(c.leaseId, 16) && IsToken(c.operationId, 32)
    && c.generation >= 1 && c.issuedAt < c.renewAfter < c.expiresAt
    && c.expiresAt - c.issuedAt <= 86400 && c.expiresAt <= SAFE_MAX - 120
  }

  predicate ValidClaims(c: Claims) {
    && Acceptable(c)
    && FieldText(c.issuer) && FieldText(c.audience)
    && c.generation <= SAFE_MAX && c.revocationSeq <= SAFE_MAX
  }

  /** The rules on claims: a lease lasts at most a day, and 120 seconds more fit a safe integer. */
  lemma ClaimRules(c: Claims)
    ensures ValidClaims(c) <==>
            && KeyIdValid(c.deviceKeyId) && KeyIdValid(c.signerKeyId) && HexDigest(c.licenseFingerprint)
            && IsToken(c.operationId, 32) && IsToken(c.leaseId, 16) && IsToken(c.bindingId, 16)
            && IsName(c.feature, 15) && IsName(c.project, 127)
            && 1 <= |c.issuer| <= 1024 && IsUtf8(c.issuer) && 1 <= |c.audience| <= 1024 && IsUtf8(c.audience)
            && 0 < c.generation <= 9007199254740991 && c.revocationSeq <= 9007199254740991
            && c.issuedAt < c.renewAfter < c.expiresAt <= 9007199254740871 && c.expiresAt <= c.issuedAt + 24 * 3600
  {
  }

  /** Decoded claims are what the session and the store take them for. */
  lemma ValidClaimsAreWellFormed(c: Claims)
    requires ValidClaims(c)
    ensures Lease.WellFormed(c)
  {
  }

  /** The texts of a payload, in the order of their fields. */
  function TextFields(purpose: string, c: Claims): seq<string> {
    [purpose, c.signerKeyId, c.issuer, c.audience, c.project, c.feature, c.licenseFingerprint, c.bindingId,
     c.deviceKeyId, c.leaseId, c.operationId]
  }

  datatype Numbers = Numbers(generation: nat, revocationSeq: nat, issuedAt: nat, renewAfter: nat, expiresAt: nat)

  function ClaimsFrom(texts: seq<string>, n: Numbers): Claims
    requires |texts| == 11
  {
    Lease.Claims(texts[1], texts[2], texts[3], texts[4], texts[5], texts[6], texts[7], texts[8], texts[9], texts[10],
                 n.generation, n.revocationSeq, n.issuedAt, n.renewAfter, n.expiresAt)
  }

  /** The numbers of a payload, if all are safe integers and the version is 1. */
  function NumbersOf(values: seq<string>): Option<Numbers>
    requires |values| == 17
  {
    var generation, revocationSeq := SafeInteger(values[10]), SafeInteger(values[11]);
    var issuedAt, renewAfter, expiresAt := SafeInteger(values[14]), SafeInteger(values[15]), SafeInteger(values[16]);
    if SafeInteger(values[0]) != Some(1) || generation.None? || revocationSeq.None? || issuedAt.None?
       || renewAfter.None? || expiresAt.None?
    then None
    else Some(Numbers(generation.value, revocationSeq.value, issuedAt.value, renewAfter.value, expiresAt.value))
  }

  /** The position of a text among the fields. */
  function TextAt(k: nat): (i: nat)
    requires k < 11
    ensures i < 17
  {
    if k < 9 then k + 1 else k + 3
  }

  function ValueAt(purpose: string, c: Claims, i: nat): string
    requires i < 17
  {
    if i == 0 then Decimal(1)
    else if i < 10 then Field64(TextFields(purpose, c)[i - 1])
    else if i == 10 then Decimal(c.generation)
    else if i == 11 then Decimal(c.revocationSeq)
    else if i < 14 then Field64(TextFields(purpose, c)[i - 3])
    else if i == 14 then Decimal(c.issuedAt)
    else if i == 15 then Decimal(c.renewAfter)
    else Decimal(c.expiresAt)
  }

  /** The 17 values of a payload: version, texts and decimal numbers. */
  function ValuesOf(purpose: string, c: Claims): (values: seq<string>)
    ensures |values| == 17
  {
    seq(17, i requires 0 <= i < 17 => ValueAt(purpose, c, i))
  }

  ghost predicate IsTextOf(value: string, text: string) {
    FieldText(text) && Field64(text) == value
  }

  ghost predicate TextsAre(values: seq<string>, texts: seq<string>)
    requires |values| == 17 && |texts| <= 11
  {
    forall k | 0 <= k < |texts| :: IsTextOf(values[TextAt(k)], texts[k])
  }

  method DecodeText(value: string) returns (text: Option<string>)
    ensures text.Some? ==> IsTextOf(value, text.value)
    ensures forall t | IsTextOf(value, t) :: text == Some(t)
  {
    forall t | IsTextOf(value, t)
      ensures ByteText(t) && Chars(Octets(t)) == t
    {
      Utf8IsBytes(t);
      CharsOfOctets(t);
    }
    text := None;
    var decoded := DecodeBase64Url(value, MAX_FIELD);
    if decoded.None? {
      return;
    }
    var candidate := Chars(decoded.value);
    OctetsOfChars(decoded.value);
    var ok := Utf8Text(candidate, MAX_FIELD);
    Utf8IsWellFormed(candidate);
    if ok {
      text := Some(candidate);
    }
  }

  method TextsOf(values: seq<string>) returns (texts: Option<seq<string>>)
    requires |values| == 17
    ensures texts.Some? ==> |texts.value| == 11 && TextsAre(values, texts.value)
    ensures forall ts | |ts| == 11 && TextsAre(values, ts) :: texts == Some(ts)
  {
    var found: seq<string> := [];
    for k := 0 to 11
      invariant |found| == k && TextsAre(values, found)
      invariant forall ts | |ts| == 11 && TextsAre(values, ts) :: ts[..k] == found
    {
      var text := DecodeText(values[TextAt(k)]);
      if text.None? {
        return None;
      }
      found := found + [text.value];
    }
    forall ts | |ts| == 11 && TextsAre(values, ts) ensures ts == found {
      assert ts[..11] == ts;
    }
    texts := Some(found);
  }

  lemma TextsOfValid(purpose: string, c: Claims)
    requires ValidClaims(c) && FieldText(purpose)
    ensures TextsAre(ValuesOf(purpose, c), TextFields(purpose, c))
  {
    FieldsOfValid(purpose, c);
    forall k | 0 <= k < 11 ensures IsTextOf(ValuesOf(purpose, c)[TextAt(k)], TextFields(purpose, c)[k]) {
      assert TextFields(purpose, c)[k] in TextFields(purpose, c);
    }
  }

  lemma FieldsOfValid(purpose: string, c: Claims)
    requires ValidClaims(c) && FieldText(purpose)
    ensures forall t | t in TextFields(purpose, c) :: FieldText(t)
  {
    KeyIdField(c.signerKeyId);
    AsciiField(c.project);
    AsciiField(c.feature);
    AsciiField(c.licenseFingerprint);
    TokenField(c.bindingId, 16);
    KeyIdField(c.deviceKeyId);
    TokenField(c.leaseId, 16);
    TokenField(c.operationId, 32);
  }

  ghost predicate Spells(values: seq<string>, purpose: string, c: Claims) {
    ValidClaims(c) && values == ValuesOf(purpose, c)
  }

  lemma NumbersOfValid(values: seq<string>, purpose: string, c: Claims)
    requires Spells(values, purpose, c)
    ensures NumbersOf(values) ==
            Some(Numbers(c.generation, c.revocationSeq, c.issuedAt, c.renewAfter, c.expiresAt))
  {
    SafeIntegerIsDecimal(values[0], 1);
    SafeIntegerIsDecimal(values[10], c.generation);
    SafeIntegerIsDecimal(values[11], c.revocationSeq);
    SafeIntegerIsDecimal(values[14], c.issuedAt);
    SafeIntegerIsDecimal(values[15], c.renewAfter);
    SafeIntegerIsDecimal(values[16], c.expiresAt);
  }

  predicate NumbersAre(values: seq<string>, n: Numbers)
    requires |values| == 17
  {
    && values[0] == Decimal(1)
    && values[10] == Decimal(n.generation) && values[11] == Decimal(n.revocationSeq)
    && values[14] == Decimal(n.issuedAt) && values[15] == Decimal(n.renewAfter) && values[16] == Decimal(n.expiresAt)
  }

  lemma NumbersBack(values: seq<string>)
    requires |values| == 17 && NumbersOf(values).Some?
    ensures var n := NumbersOf(values).value;
            NumbersAre(values, n) && n.generation <= SAFE_MAX && n.revocationSeq <= SAFE_MAX
  {
    var n := NumbersOf(values).value;
    SafeIntegerIsDecimal(values[0], 1);
    SafeIntegerIsDecimal(values[10], n.generation);
    SafeIntegerIsDecimal(values[11], n.revocationSeq);
    SafeIntegerIsDecimal(values[14], n.issuedAt);
    SafeIntegerIsDecimal(values[15], n.renewAfter);
    SafeIntegerIsDecimal(values[16], n.expiresAt);
  }

  lemma TextBack(values: seq<string>, texts: seq<string>, k: nat)
    requires |values| == 17 && |texts| == 11 && TextsAre(values, texts) && k < 11
    ensures values[TextAt(k)] == Field64(texts[k])
  {
    assert IsTextOf(values[TextAt(k)], texts[k]);
  }

  lemma TextsOfClaims(texts: seq<string>, n: Numbers)
    requires |texts| == 11
    ensures TextFields(texts[0], ClaimsFrom(texts, n)) == texts
  {
  }

  lemma TextValueBack(values: seq<string>, texts: seq<string>, n: Numbers, k: nat)
    requires |values| == 17 && |texts| == 11 && TextsAre(values, texts) && k < 11
    ensures values[TextAt(k)] == ValueAt(texts[0], ClaimsFrom(texts, n), TextAt(k))
  {
    TextsOfClaims(texts, n);
    TextBack(values, texts, k);
  }

  lemma NumberValueBack(values: seq<string>, texts: seq<string>, n: Numbers, i: nat)
    requires |values| == 17 && |texts| == 11 && NumbersAre(values, n) && i in {0, 10, 11, 14, 15, 16}
    ensures values[i] == ValueAt(texts[0], ClaimsFrom(texts, n), i)
  {
  }

  lemma ValueBack(values: seq<string>, texts: seq<string>, n: Numbers, i: nat)
    requires |values| == 17 && |texts| == 11 && TextsAre(values, texts) && NumbersAre(values, n) && i < 17
    ensures values[i] == ValueAt(texts[0], ClaimsFrom(texts, n), i)
  {
    if 1 <= i < 10 {
      TextValueBack(values, texts, n, i - 1);
    } else if i == 12 || i == 13 {
      TextValueBack(values, texts, n, i - 3);
    } else {
      NumberValueBack(values, texts, n, i);
    }
  }

  lemma ValuesAre(values: seq<string>, purpose: string, c: Claims)
    requires |values| == 17 && forall i | 0 <= i < 17 :: values[i] == ValueAt(purpose, c, i)
    ensures values == ValuesOf(purpose, c)
  {
  }

  lemma ValuesBack(values: seq<string>, texts: seq<string>, n: Numbers)
    requires |values| == 17 && |texts| == 11 && TextsAre(values, texts) && NumbersAre(values, n)
    ensures values == ValuesOf(texts[0], ClaimsFrom(texts, n))
  {
    forall i | 0 <= i < 17
      ensures values[i] == ValueAt(texts[0], ClaimsFrom(texts, n), i)
    {
      ValueBack(values, texts, n, i);
    }
    ValuesAre(values, texts[0], ClaimsFrom(texts, n));
  }

  /** The claims that 17 values spell; there is at most one such set of claims. */
  method ClaimsOf(purpose: string, values: seq<string>) returns (out: Option<Claims>)
    requires |values| == 17 && FieldText(purpose)
    ensures out.Some? ==> Spells(values, purpose, out.value)
    ensures forall c | Spells(values, purpose, c) :: out == Some(c)
  {
    forall c | Spells(values, purpose, c)
      ensures NumbersOf(values) == Some(Numbers(c.generation, c.revocationSeq, c.issuedAt, c.renewAfter, c.expiresAt))
      ensures TextsAre(values, TextFields(purpose, c))
    {
      NumbersOfValid(values, purpose, c);
      TextsOfValid(purpose, c);
    }
    out := None;
    var numbers := NumbersOf(values);
    if numbers.None? {
      return;
    }
    var texts := TextsOf(values);
    if texts.None? {
      return;
    }
    var candidate := ClaimsFrom(texts.value, numbers.value);
    forall c | Spells(values, purpose, c)
      ensures candidate == c && texts.value[0] == purpose
    {
      assert texts.value == TextFields(purpose, c);
    }
    if texts.value[0] != purpose || !Acceptable(candidate) {
      return;
    }
    NumbersBack(values);
    ValuesBack(values, texts.value, numbers.value);
    assert IsTextOf(values[TextAt(2)], texts.value[2]) && IsTextOf(values[TextAt(3)], texts.value[3]);
    out := Some(candidate);
  }

  // ----- Payloads and tokens -----

  lemma PurposeIsAscii()
    ensures IsAscii(PURPOSE) && 0 < |PURPOSE| <= MAX_FIELD
  {
  }

  lemma NameHasNoBreak(i: nat)
    requires i < |FIELD_NAMES|
    ensures '\n' !in FIELD_NAMES[i]
  {
  }

  lemma NamesHaveNoBreaks()
    ensures NoBreaks(FIELD_NAMES)
  {
    forall i | 0 <= i < |FIELD_NAMES| ensures '\n' !in FIELD_NAMES[i] {
      NameHasNoBreak(i);
    }
    NoBreaksAt(FIELD_NAMES);
  }

  lemma {:induction false} NoBreaksAt(values: seq<string>)
    requires forall i | 0 <= i < |values| :: '\n' !in values[i]
    ensures NoBreaks(values)
  {
    if values != [] {
      NoBreaksAt(values[1..]);
    }
  }

  lemma ValuesHaveNoBreaks(purpose: string, c: Claims)
    ensures NoBreaks(ValuesOf(purpose, c))
  {
    forall i | 0 <= i < 17 ensures '\n' !in ValueAt(purpose, c, i) {
      if 1 <= i < 10 {
        Url64Chars(Octets(TextFields(purpose, c)[i - 1]));
      } else if i == 12 || i == 13 {
        Url64Chars(Octets(TextFields(purpose, c)[i - 3]));
      }
    }
    NoBreaksAt(ValuesOf(purpose, c));
  }

  function PayloadOf(names: seq<string>, purpose: string, c: Claims): string
    requires |names| == 17
  {
    Printed(names, ValuesOf(purpose, c))
  }

  /** The one payload of these claims. */
  function Payload(c: Claims): string {
    PayloadOf(FIELD_NAMES, PURPOSE, c)
  }

  ghost predicate IsPayloadOf(payload: string, c: Claims) {
    ValidClaims(c) && payload == Payload(c)
  }

  method ReadClaims(names: seq<string>, purpose: string, payload: string) returns (out: Option<Claims>)
    requires |names| == 17 && NoBreaks(names) && IsAscii(purpose) && 0 < |purpose| <= MAX_FIELD
    ensures out.Some? ==> ValidClaims(out.value) && payload == PayloadOf(names, purpose, out.value)
    ensures forall c | ValidClaims(c) && payload == PayloadOf(names, purpose, c) :: out == Some(c)
  {
    AsciiField(purpose);
    forall c | ValidClaims(c) && payload == PayloadOf(names, purpose, c)
      ensures Split(payload, names) == Some(ValuesOf(purpose, c)) && Spells(ValuesOf(purpose, c), purpose, c)
    {
      ValuesHaveNoBreaks(purpose, c);
      SplitOfPrinted(names, ValuesOf(purpose, c));
    }
    var values := SplitFields(payload, names);
    if values.None? {
      return None;
    }
    PrintedOfSplit(payload, names);
    out := ClaimsOf(purpose, values.value);
  }

  /** The decoded claims determine every byte of the payload. */
  method PayloadClaims(payload: string) returns (out: Option<Claims>)
    ensures out.Some? ==> 0 < |payload| <= MAX_PAYLOAD && IsPayloadOf(payload, out.value)
    ensures forall c | IsPayloadOf(payload, c) && 0 < |payload| <= MAX_PAYLOAD :: out == Some(c)
  {
    if payload == "" || |payload| > MAX_PAYLOAD {
      return None;
    }
    PurposeIsAscii();
    NamesHaveNoBreaks();
    out := ReadClaims(FIELD_NAMES, PURPOSE, payload);
  }

  const PREFIX := "lccdl1."
  const MAX_TOKEN := 8192
  const SIGNATURE_SIZE := 384

  datatype Envelope = Envelope(claims: Claims, payload: seq<byte>, signature: seq<byte>)

  /** The one token of a payload and a signature. */
  function TokenOf(payload: seq<byte>, signature: seq<byte>): string {
    PREFIX + Url64(payload) + "." + Url64(signature)
  }

  ghost predicate IsTokenOf(token: string, e: Envelope) {
    && token == TokenOf(e.payload, e.signature) && |token| <= MAX_TOKEN
    && 0 < |e.payload| <= MAX_PAYLOAD && |e.signature| == SIGNATURE_SIZE
    && IsPayloadOf(Chars(e.payload), e.claims)
  }

  datatype Parts = Parts(payload: string, signature: string)

  /** The parts around the only separator after the prefix. */
  function PartsOf(token: string): (r: Option<Parts>) {
    if |token| < 7 || token[..7] != PREFIX then None
    else
      var separator := Find(token[7..], '.');
      if separator == |token[7..]| then None
      else
        var signature := token[7..][separator + 1..];
        if '.' in signature then None else Some(Parts(token[7..][..separator], signature))
  }

  lemma PartsDetermine(token: string, p: Parts)
    ensures PartsOf(token) == Some(p) <==>
            token == PREFIX + (p.payload + "." + p.signature) && '.' !in p.payload && '.' !in p.signature
  {
    var body := p.payload + "." + p.signature;
    if token == PREFIX + body && '.' !in p.payload && '.' !in p.signature {
      assert token[7..] == body && token[..7] == PREFIX;
      FindFirst(p.payload, p.signature, '.');
      assert body[..|p.payload|] == p.payload && body[|p.payload| + 1..] == p.signature;
    }
    if PartsOf(token) == Some(p) {
      var rest, n := token[7..], Find(token[7..], '.');
      assert forall k | 0 <= k < n :: rest[..n][k] == rest[k];
      assert rest == rest[..n] + [rest[n]] + rest[n + 1..];
      assert token == token[..7] + rest;
    }
  }

  // ----- What is decoded is a function of the token -----

  lemma TextUnique(value: string, s: string, t: string)
    requires IsTextOf(value, s) && IsTextOf(value, t)
    ensures s == t
  {
    Utf8IsBytes(s);
    Utf8IsBytes(t);
    Field64Injective(s, t);
  }

  lemma ValuesDetermine(purpose: string, c: Claims, d: Claims)
    requires ValidClaims(c) && ValidClaims(d) && FieldText(purpose) && ValuesOf(purpose, c) == ValuesOf(purpose, d)
    ensures c == d
  {
    var values, x, y := ValuesOf(purpose, c), TextFields(purpose, c), TextFields(purpose, d);
    NumbersOfValid(values, purpose, c);
    NumbersOfValid(values, purpose, d);
    TextsOfValid(purpose, c);
    TextsOfValid(purpose, d);
    forall k | 0 <= k < 11 ensures x[k] == y[k] {
      TextUnique(values[TextAt(k)], x[k], y[k]);
    }
    assert x == y;
    ClaimsOfTextFields(purpose, c);
    ClaimsOfTextFields(purpose, d);
  }

  lemma ClaimsOfTextFields(purpose: string, c: Claims)
    ensures ClaimsFrom(TextFields(purpose, c),
                       Numbers(c.generation, c.revocationSeq, c.issuedAt, c.renewAfter, c.expiresAt)) == c
  {
  }

  lemma {:induction false} SamePayload(names: seq<string>, purpose: string, c: Claims, d: Claims)
    requires |names| == 17 && NoBreaks(names) && IsAscii(purpose) && 0 < |purpose| <= MAX_FIELD
    requires ValidClaims(c) && ValidClaims(d) && PayloadOf(names, purpose, c) == PayloadOf(names, purpose, d)
    ensures c == d
  {
    AsciiField(purpose);
    ValuesHaveNoBreaks(purpose, c);
    ValuesHaveNoBreaks(purpose, d);
    SplitOfPrinted(names, ValuesOf(purpose, c));
    SplitOfPrinted(names, ValuesOf(purpose, d));
    ValuesDetermine(purpose, c, d);
  }

  /** Claims and payloads determine each other. */
  lemma PayloadDetermines(c: Claims, d: Claims)
    ensures ValidClaims(c) && ValidClaims(d) ==> (Payload(c) == Payload(d) <==> c == d)
  {
    if ValidClaims(c) && ValidClaims(d) && Payload(c) == Payload(d) {
      PurposeIsAscii();
      NamesHaveNoBreaks();
      SamePayload(FIELD_NAMES, PURPOSE, c, d);
    }
  }

  lemma EnvelopeUnique(token: string, e: Envelope, f: Envelope)
    requires IsTokenOf(token, e) && IsTokenOf(token, f)
    ensures e == f
  {
    PartsOfToken(token, e);
    PartsOfToken(token, f);
    Url64Injective(e.payload, f.payload);
    Url64Injective(e.signature, f.signature);
    PayloadDetermines(e.claims, f.claims);
  }

  /** The decoding that leases are verified with. */
  ghost function Decoded(token: string): Option<Lease.Claims> {
    if e: Envelope :| IsTokenOf(token, e) then
      ValidClaimsAreWellFormed(e.claims);
      Some(e.claims)
    else None
  }

  lemma DecodedIs(token: string, e: Envelope)
    requires IsTokenOf(token, e)
    ensures Decoded(token).Some? && Decoded(token).value == e.claims
  {
    var f: Envelope :| IsTokenOf(token, f) && Decoded(token).value == f.claims;
    EnvelopeUnique(token, e, f);
  }

  /** The authority of the real decoder: everything proved of sessions and stores holds with it. */
  ghost function DecodingAuthority(authentic: Lease.Token -> bool): Lease.Authority {
    Lease.Authority((token: Lease.Token) => Decoded(token), authentic)
  }

  /** The envelope that a token spells; there is at most one. */
  method DecodeBoundLease(token: string) returns (out: Option<Envelope>)
    ensures out.Some? ==> IsTokenOf(token, out.value)
    ensures forall e | IsTokenOf(token, e) :: out == Some(e)
    ensures out.Some? <==> Decoded(token).Some?
    ensures out.Some? ==> Decoded(token).value == out.value.claims
  {
    out := DecodeToken(token);
    if out.Some? {
      DecodedIs(token, out.value);
    }
  }

  method DecodeToken(token: string) returns (out: Option<Envelope>)
    ensures out.Some? ==> IsTokenOf(token, out.value)
    ensures forall e | IsTokenOf(token, e) :: out == Some(e)
  {
    forall e | IsTokenOf(token, e)
      ensures PartsOf(token) == Some(Parts(Url64(e.payload), Url64(e.signature)))
    {
      PartsOfToken(token, e);
    }
    if |token| > MAX_TOKEN {
      return None;
    }
    var parts := PartsOf(token);
    if parts.None? {
      return None;
    }
    out := DecodeParts(parts.value);
    if out.Some? {
      PartsGiveToken(token, out.value);
    }
  }

  lemma PartsGiveToken(token: string, e: Envelope)
    requires PartsOf(token) == Some(Parts(Url64(e.payload), Url64(e.signature)))
    ensures token == TokenOf(e.payload, e.signature)
  {
    PartsDetermine(token, Parts(Url64(e.payload), Url64(e.signature)));
    Assoc(PREFIX + Url64(e.payload), ".", Url64(e.signature));
    Assoc(PREFIX, Url64(e.payload), "." + Url64(e.signature));
    Assoc(Url64(e.payload), ".", Url64(e.signature));
  }

  lemma PartsOfToken(token: string, e: Envelope)
    requires token == TokenOf(e.payload, e.signature)
    ensures PartsOf(token) == Some(Parts(Url64(e.payload), Url64(e.signature)))
  {
    var p := Parts(Url64(e.payload), Url64(e.signature));
    Url64Chars(e.payload);
    Url64Chars(e.signature);
    assert token == PREFIX + (p.payload + "." + p.signature);
    PartsDetermine(token, p);
  }

  ghost predicate Spelled(p: Parts, e: Envelope) {
    && p == Parts(Url64(e.payload), Url64(e.signature))
    && 0 < |e.payload| <= MAX_PAYLOAD && |e.signature| == SIGNATURE_SIZE
    && IsPayloadOf(Chars(e.payload), e.claims)
  }

  method DecodeParts(p: Parts) returns (out: Option<Envelope>)
    ensures out.Some? ==> Spelled(p, out.value)
    ensures forall e | Spelled(p, e) :: out == Some(e)
  {
    var payload := DecodeBase64Url(p.payload, MAX_PAYLOAD);
    if payload.None? {
      return None;
    }
    var signature := DecodeBase64Url(p.signature, SIGNATURE_SIZE);
    if signature.None? || |signature.value| != SIGNATURE_SIZE {
      return None;
    }
    var claims := PayloadClaims(Chars(payload.value));
    if claims.None? {
      return None;
    }
    out := Some(Envelope(claims.value, payload.value, signature.value));
  }

  /** Equal claims were signed as equal bytes, and the session may rely on all that it assumes of them. */
  lemma ClaimsDetermineTheSignedBytes(token: string, e: Envelope, other: string, f: Envelope)
    requires IsTokenOf(token, e) && IsTokenOf(other, f) && e.claims == f.claims
    ensures e.payload == f.payload && Lease.WellFormed(e.claims)
    ensures e.signature == f.signature ==> token == other
  {
    OctetsOfChars(e.payload);
    OctetsOfChars(f.payload);
  }

  // ----- What stands in each line -----

  function Assignments(names: seq<string>, values: seq<string>): (lines: seq<string>)
    requires |names| == |values|
    ensures |lines| == |names| && forall i | 0 <= i < |names| :: lines[i] == names[i] + "=" + values[i]
  {
    seq(|names|, i requires 0 <= i < |names| => names[i] + "=" + values[i])
  }

  lemma {:induction false} PrintedSplit(names: seq<string>, values: seq<string>)
    requires |names| == |values| && NoBreaks(names) && NoBreaks(values)
    ensures SplitAt(Printed(names, values), '\n') == Assignments(names, values) + [""]
  {
    if names != [] {
      var line := names[0] + "=" + values[0];
      PrintedSplit(names[1..], values[1..]);
      SplitFirst(line, '\n', Printed(names[1..], values[1..]));
      assert Printed(names, values) == line + ['\n'] + Printed(names[1..], values[1..]);
      assert Assignments(names, values) == [line] + Assignments(names[1..], values[1..]);
    }
  }

  /** The 17 lines of a payload. */
  lemma PayloadLayout(c: Claims)
    ensures SplitAt(Payload(c), '\n') ==
            Assignments(["version", "purpose", "key-id", "issuer", "audience", "project", "feature",
                         "license-fingerprint", "binding-id", "device-key-id", "generation", "revocation-seq",
                         "lease-id", "operation-id", "issued-at", "renew-after", "expires-at"],
                        ["1", Field64("device-lease"), Field64(c.signerKeyId), Field64(c.issuer), Field64(c.audience),
                         Field64(c.project), Field64(c.feature), Field64(c.licenseFingerprint), Field64(c.bindingId),
                         Field64(c.deviceKeyId), Decimal(c.generation), Decimal(c.revocationSeq), Field64(c.leaseId),
                         Field64(c.operationId), Decimal(c.issuedAt), Decimal(c.renewAfter), Decimal(c.expiresAt)])
            + [""]
  {
    NamesHaveNoBreaks();
    ValuesHaveNoBreaks(PURPOSE, c);
    PrintedSplit(FIELD_NAMES, ValuesOf(PURPOSE, c));
    ValuesInOrder(c);
  }

  lemma ValuesInOrder(c: Claims)
    ensures ValuesOf(PURPOSE, c) ==
            ["1", Field64("device-lease"), Field64(c.signerKeyId), Field64(c.issuer), Field64(c.audience),
             Field64(c.project), Field64(c.feature), Field64(c.licenseFingerprint), Field64(c.bindingId),
             Field64(c.deviceKeyId), Decimal(c.generation), Decimal(c.revocationSeq), Field64(c.leaseId),
             Field64(c.operationId), Decimal(c.issuedAt), Decimal(c.renewAfter), Decimal(c.expiresAt)]
  {
  }

  /** The three parts of a token, and the limits on its size. */
  lemma {:induction false} TokenLayout(token: string, e: Envelope)
    requires IsTokenOf(token, e)
    ensures SplitAt(token, '.') == ["lccdl1", Url64(e.payload), Url64(e.signature)]
    ensures |token| <= 8192 && |e.payload| <= 4096 && |e.signature| == 384
  {
    TokenSplit(e.payload, e.signature);
  }

  lemma TokenSplit(payload: seq<byte>, signature: seq<byte>)
    ensures SplitAt(TokenOf(payload, signature), '.') == ["lccdl1", Url64(payload), Url64(signature)]
  {
    NoDot(payload);
    NoDot(signature);
    SplitThree("lccdl1", Url64(payload), Url64(signature), '.');
    assert PREFIX == "lccdl1" + ['.'];
  }

  lemma NoDot(b: seq<byte>)
    ensures '.' !in Url64(b)
  {
    Url64Chars(b);
  }

  lemma {:induction false} SplitThree(a: string, b: string, c: string, separator: char)
    requires separator !in a && separator !in b && separator !in c
    ensures SplitAt(a + [separator] + b + [separator] + c, separator) == [a, b, c]
  {
    SplitFirst(a, separator, b + [separator] + c);
    SplitFirst(b, separator, c);
    SplitNothing(c, separator);
    assert a + [separator] + b + [separator] + c == a + [separator] + (b + [separator] + c);
  }
}
