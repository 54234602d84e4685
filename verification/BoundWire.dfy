/**
 The requests that hold texts only (`bound_wire.cpp`): each is the printed form of an object that the parser reads back
 with exactly these fields.
 */
module BoundWire {
  import opened Wrappers
  import opened Base64
  import opened UrlFields
  import opened Utf8
  import opened TextRules
  import opened Loopback
  import opened Operations
  import opened JsonGrammar
  import opened JsonPrinter
  import Transcript

  // ----- Objects of texts -----

  function TextMembers(keys: seq<string>, texts: seq<string>): (members: seq<Member>)
    requires |keys| == |texts|
    ensures |members| == |keys|
  {
    seq(|keys|, i requires 0 <= i < |keys| => Member(keys[i], TextTree(texts[i])))
  }

  function TextObject(keys: seq<string>, texts: seq<string>): Tree
    requires |keys| == |texts|
  {
    ObjectTree(TextMembers(keys, texts))
  }

  predicate AllDistinct(keys: seq<string>) {
    forall i, j | 0 <= i < j < |keys| :: keys[i] != keys[j]
  }

  /** The value has exactly these fields. */
  predicate Holds(value: Value, keys: seq<string>, texts: seq<string>)
    requires |keys| == |texts|
  {
    && value.Object?
    && value.fields.Keys == (set i | 0 <= i < |keys| :: keys[i])
    && forall i | 0 <= i < |keys| :: value.fields[keys[i]] == Text(texts[i])
  }

  lemma {:induction false} DistinctMembers(seen: set<string>, keys: seq<string>, texts: seq<string>)
    requires |keys| == |texts| && AllDistinct(keys) && forall i | 0 <= i < |keys| :: keys[i] !in seen
    ensures Distinct(seen, TextMembers(keys, texts))
    decreases |keys|
  {
    if keys != [] {
      assert TextMembers(keys, texts)[1..] == TextMembers(keys[1..], texts[1..]);
      DistinctMembers(seen + {keys[0]}, keys[1..], texts[1..]);
    }
  }

  lemma {:induction false} CollectTexts(fields: map<string, Value>, keys: seq<string>, texts: seq<string>)
    requires |keys| == |texts| && AllDistinct(keys) && forall i | 0 <= i < |keys| :: keys[i] !in fields
    ensures var all := Collect(fields, TextMembers(keys, texts));
            && all.Keys == fields.Keys + (set i | 0 <= i < |keys| :: keys[i])
            && (forall k | k in fields :: all[k] == fields[k])
            && (forall i | 0 <= i < |keys| :: all[keys[i]] == Text(texts[i]))
    decreases |keys|
  {
    if keys != [] {
      var more := fields[keys[0] := Text(texts[0])];
      assert TextMembers(keys, texts)[1..] == TextMembers(keys[1..], texts[1..]);
      CollectTexts(more, keys[1..], texts[1..]);
      assert forall i | 0 < i < |keys| :: keys[i] == keys[1..][i - 1] && texts[i] == texts[1..][i - 1];
      assert keys[0] in more;
    }
  }

  /** Printed objects of texts parse to exactly those texts. */
  lemma TextsParse(keys: seq<string>, texts: seq<string>)
    requires |keys| == |texts| <= MAX_FIELDS && AllDistinct(keys)
    requires forall i | 0 <= i < |keys| :: |keys[i]| <= MAX_KEY && IsUtf8(keys[i]) && IsUtf8(texts[i])
    requires |Print(TextObject(keys, texts))| <= MAX_TEXT
    ensures var value := Parse(Print(TextObject(keys, texts))); value.Some? && Holds(value.value, keys, texts)
  {
    var none: map<string, Value> := map[];
    DistinctMembers({}, keys, texts);
    CollectTexts(none, keys, texts);
    PrintedParses(TextObject(keys, texts));
  }

  // ----- Appending -----

  lemma {:induction false} NothingQuoted(text: string)
    requires Unescaped(text)
    ensures QuoteAll(text) == text
  {
    if text != "" {
      NothingQuoted(text[1..]);
      assert QuoteChar(text[0]) == [text[0]];
    }
  }

  lemma {:induction false} QuotedLength(text: string)
    ensures |QuoteAll(text)| <= 6 * |text|
  {
    if text != "" {
      QuotedLength(text[1..]);
    }
  }

  lemma {:induction false} PrintSnoc(members: seq<Member>, m: Member)
    ensures PrintMembers(members + [m]) == PrintMembers(members) + (if members == [] then "" else ",") + PrintMember(m)
  {
    if members == [] {
      assert members + [m] == [m];
    } else {
      var more := members[1..];
      PrintSnoc(more, m);
      SplitMembers(members[0], more + [m]);
      assert members + [m] == [members[0]] + (more + [m]);
      if more == [] {
        assert members == [members[0]];
      } else {
        assert members == [members[0]] + more;
        SplitMembers(members[0], more);
        Nest(PrintMember(members[0]), PrintMembers(more), ",", PrintMember(m));
      }
    }
  }

  lemma {:induction false} SplitMembers(m: Member, more: seq<Member>)
    requires more != []
    ensures PrintMembers([m] + more) == PrintMember(m) + "," + PrintMembers(more)
  {
    assert ([m] + more)[1..] == more;
  }

  lemma Nest(a: string, b: string, c: string, d: string)
    ensures a + "," + (b + c + d) == a + "," + b + c + d
  {
  }

  /** The text after the first `n` members. */
  ghost predicate Written(out: string, keys: seq<string>, texts: seq<string>, n: nat) {
    && |keys| == |texts| && n <= |keys|
    && out == if n == 0 then "" else "{" + PrintMembers(TextMembers(keys[..n], texts[..n]))
  }

  /** What stands before a quoted text. */
  function Head(first: bool, key: string): string {
    (if first then "{\"" else ",\"") + key + "\":"
  }

  lemma WrittenMore(out: string, keys: seq<string>, texts: seq<string>, n: nat)
    requires Written(out, keys, texts, n) && n < |keys| && Unescaped(keys[n])
    ensures Written(out + Head(n == 0, keys[n]) + Quoted(texts[n]), keys, texts, n + 1)
  {
    var members := TextMembers(keys[..n], texts[..n]);
    var m := Member(keys[n], TextTree(texts[n]));
    assert TextMembers(keys[..n + 1], texts[..n + 1]) == members + [m];
    PrintSnoc(members, m);
    NothingQuoted(keys[n]);
    HeadOf(out, keys[n], Quoted(texts[n]), PrintMembers(members), n == 0);
  }

  lemma HeadOf(out: string, key: string, quoted: string, before: string, first: bool)
    requires out == if first then "" else "{" + before
    requires first ==> before == ""
    ensures out + Head(first, key) + quoted ==
            "{" + (before + (if first then "" else ",") + ("\"" + key + "\"" + ":" + quoted))
  {
  }

  /** Appends a key and a quoted text. */
  method AppendText(prefix: string, first: bool, key: string, text: string) returns (out: string)
    ensures out == prefix + Head(first, key) + Quoted(text)
    ensures |out| <= |prefix| + |key| + 6 * |text| + 6
  {
    QuotedLength(text);
    out := prefix + Head(first, key);
    out := AppendQuoted(out, text);
  }

  /** Appends the next member. */
  method AppendNext(prefix: string, keys: seq<string>, texts: seq<string>, n: nat) returns (out: string)
    requires Written(prefix, keys, texts, n) && n < |keys| && KeyText(keys[n])
    ensures Written(out, keys, texts, n + 1) && |out| <= |prefix| + 6 * |texts[n]| + 38
  {
    WrittenMore(prefix, keys, texts, n);
    out := AppendText(prefix, n == 0, keys[n], texts[n]);
  }

  predicate KeyText(key: string) {
    |key| <= 32 && Unescaped(key)
  }

  // ----- The authorization request -----

  datatype AuthorizationInput = AuthorizationInput(
    clientId: string,
    project: string,
    requestedFeature: string,
    publicKeySpki: string,
    deviceLabel: string,
    redirectUri: string,
    state: string,
    codeChallenge: string
  )

  /** What the label rule lets through. */
  type Label = s: string | s != "" && |s| <= 320 && IsUtf8(s) witness "a"

  /** The label rule, and the canonical form of a P-256 public key. */
  datatype Rules = Rules(labelOf: string -> Option<Label>, canonicalSpki: seq<byte> -> Option<seq<byte>>)

  const AUTHORIZATION_KEYS := [
    "client_id", "project", "requested_feature", "public_key_spki", "device_label", "redirect_uri", "state",
    "code_challenge", "code_challenge_method"
  ]

  function AuthorizationTexts(input: AuthorizationInput, shown: Label): seq<string> {
    [input.clientId, input.project, input.requestedFeature, input.publicKeySpki, shown, input.redirectUri, input.state,
     input.codeChallenge, "S256"]
  }

  ghost predicate SpkiText(rules: Rules, text: string) {
    exists b: seq<byte> :: |b| == 91 && Url64(b) == text && rules.canonicalSpki(b) == Some(b)
  }

  ghost predicate AuthorizationValid(rules: Rules, input: AuthorizationInput) {
    && IsName(input.clientId, 127) && IsName(input.project, 127) && IsName(input.requestedFeature, 15)
    && rules.labelOf(input.deviceLabel).Some? && LoopbackUri(input.redirectUri)
    && IsToken(input.state, 32) && IsToken(input.codeChallenge, 32)
    && SpkiText(rules, input.publicKeySpki)
  }

  ghost function AuthorizationObject(rules: Rules, input: AuthorizationInput): Tree
    requires AuthorizationValid(rules, input)
  {
    TextObject(AUTHORIZATION_KEYS, AuthorizationTexts(input, rules.labelOf(input.deviceLabel).value))
  }

  lemma AuthorizationKeys()
    ensures |AUTHORIZATION_KEYS| == 9 && AllDistinct(AUTHORIZATION_KEYS)
    ensures forall i | 0 <= i < 9 :: KeyText(AUTHORIZATION_KEYS[i])
  {
    KeysDiffer();
    KeysPlain();
  }

  lemma KeysDiffer()
    ensures AllDistinct(AUTHORIZATION_KEYS)
  {
    var lengths := [9, 7, 17, 15, 12, 12, 5, 14, 21];
    assert forall i | 0 <= i < 9 :: |AUTHORIZATION_KEYS[i]| == lengths[i];
    assert AUTHORIZATION_KEYS[4][0] == 'd' && AUTHORIZATION_KEYS[5][0] == 'r';
  }

  lemma KeysPlain()
    ensures forall i | 0 <= i < 9 :: KeyText(AUTHORIZATION_KEYS[i])
  {
  }

  method CheckSpki(rules: Rules, text: string) returns (ok: bool)
    ensures ok <==> SpkiText(rules, text)
    ensures ok ==> |text| <= 122 && IsAscii(text)
  {
    var bytes := DecodeBase64Url(text, 91);
    ok := bytes.Some? && |bytes.value| == 91 && rules.canonicalSpki(bytes.value) == bytes;
    if ok {
      SpkiIsAscii(bytes.value);
    }
  }

  lemma SpkiIsAscii(b: seq<byte>)
    requires |b| == 91
    ensures |Url64(b)| == 122 && IsAscii(Url64(b))
  {
    SextetsLength(b);
    Url64Chars(b);
  }

  /** Succeeds on exactly the valid inputs; what it writes is the printed object of the nine texts. */
  method EncodeBoundAuthorization(rules: Rules, input: AuthorizationInput) returns (out: Option<string>)
    ensures out.Some? <==> AuthorizationValid(rules, input)
    ensures out.Some? ==> out.value == Print(AuthorizationObject(rules, input)) && |out.value| <= MAX_TEXT
  {
    out := None;
    var shown := rules.labelOf(input.deviceLabel);
    if !IsName(input.clientId, 127) || !IsName(input.project, 127) || !IsName(input.requestedFeature, 15)
       || shown.None? || !LoopbackUri(input.redirectUri) || !IsToken(input.state, 32)
       || !IsToken(input.codeChallenge, 32)
    {
      return;
    }
    var canonical := CheckSpki(rules, input.publicKeySpki);
    if canonical {
      AuthorizationKeys();
      var text := WriteNine(AUTHORIZATION_KEYS, AuthorizationTexts(input, shown.value));
      out := Some(text);
    }
  }

  /** Nine members, one after the other. */
  method WriteNine(keys: seq<string>, texts: seq<string>) returns (out: string)
    requires |keys| == |texts| == 9 && forall i | 0 <= i < 9 :: KeyText(keys[i])
    ensures out == Print(TextObject(keys, texts))
    ensures |out| <= 6 * Total(texts) + 343
  {
    out := AppendThree("", keys, texts, 0);
    out := AppendThree(out, keys, texts, 3);
    out := AppendThree(out, keys, texts, 6);
    assert keys[..9] == keys && texts[..9] == texts;
    out := out + "}";
  }

  method AppendThree(prefix: string, keys: seq<string>, texts: seq<string>, n: nat) returns (out: string)
    requires Written(prefix, keys, texts, n) && n + 3 <= |keys|
    requires forall i | n <= i < n + 3 :: KeyText(keys[i])
    ensures Written(out, keys, texts, n + 3)
    ensures |out| <= |prefix| + 6 * (|texts[n]| + |texts[n + 1]| + |texts[n + 2]|) + 114
  {
    out := AppendNext(prefix, keys, texts, n);
    out := AppendNext(out, keys, texts, n + 1);
    out := AppendNext(out, keys, texts, n + 2);
  }

  function Total(texts: seq<string>): nat
    requires |texts| == 9
  {
    |texts[0]| + |texts[1]| + |texts[2]| + |texts[3]| + |texts[4]| + |texts[5]| + |texts[6]| + |texts[7]| + |texts[8]|
  }

  /** The server reads back exactly the nine fields, with the label as the rule shows it. */
  lemma AuthorizationParses(rules: Rules, input: AuthorizationInput)
    requires AuthorizationValid(rules, input) && |Print(AuthorizationObject(rules, input))| <= MAX_TEXT
    ensures Parse(Print(AuthorizationObject(rules, input))) ==
            Some(Object(map["client_id" := Text(input.clientId), "project" := Text(input.project),
                            "requested_feature" := Text(input.requestedFeature),
                            "public_key_spki" := Text(input.publicKeySpki),
                            "device_label" := Text(rules.labelOf(input.deviceLabel).value),
                            "redirect_uri" := Text(input.redirectUri), "state" := Text(input.state),
                            "code_challenge" := Text(input.codeChallenge), "code_challenge_method" := Text("S256")]))
  {
    var shown := rules.labelOf(input.deviceLabel).value;
    AuthorizationKeys();
    AuthorizationUtf8(rules, input, shown);
    AsciiKeysParse(AUTHORIZATION_KEYS, AuthorizationTexts(input, shown));
    NineFields(Parse(Print(AuthorizationObject(rules, input))).value, AuthorizationTexts(input, shown));
  }

  lemma NineFields(value: Value, texts: seq<string>)
    requires |texts| == 9 && Holds(value, AUTHORIZATION_KEYS, texts)
    ensures value ==
            Object(map["client_id" := Text(texts[0]), "project" := Text(texts[1]),
                       "requested_feature" := Text(texts[2]), "public_key_spki" := Text(texts[3]),
                       "device_label" := Text(texts[4]), "redirect_uri" := Text(texts[5]),
                       "state" := Text(texts[6]), "code_challenge" := Text(texts[7]),
                       "code_challenge_method" := Text(texts[8])])
  {
    AuthorizationKeys();
    NineFieldsOf(value, AUTHORIZATION_KEYS, texts);
  }

  lemma NineFieldsOf(value: Value, keys: seq<string>, texts: seq<string>)
    requires |keys| == |texts| == 9 && AllDistinct(keys) && Holds(value, keys, texts)
    ensures value ==
            Object(map[keys[0] := Text(texts[0]), keys[1] := Text(texts[1]), keys[2] := Text(texts[2]),
                       keys[3] := Text(texts[3]), keys[4] := Text(texts[4]), keys[5] := Text(texts[5]),
                       keys[6] := Text(texts[6]), keys[7] := Text(texts[7]), keys[8] := Text(texts[8])])
  {
    assert value.fields.Keys ==
           {keys[0], keys[1], keys[2], keys[3], keys[4], keys[5], keys[6], keys[7], keys[8]};
  }

  lemma AsciiKeysParse(keys: seq<string>, texts: seq<string>)
    requires |keys| == |texts| <= MAX_FIELDS && AllDistinct(keys)
    requires forall i | 0 <= i < |keys| :: KeyText(keys[i]) && IsUtf8(texts[i])
    requires |Print(TextObject(keys, texts))| <= MAX_TEXT
    ensures var value := Parse(Print(TextObject(keys, texts))); value.Some? && Holds(value.value, keys, texts)
  {
    forall i | 0 <= i < |keys| ensures IsUtf8(keys[i]) {
      AsciiText(keys[i]);
    }
    TextsParse(keys, texts);
  }

  lemma AuthorizationUtf8(rules: Rules, input: AuthorizationInput, shown: Label)
    requires AuthorizationValid(rules, input)
    ensures forall i | 0 <= i < 9 :: IsUtf8(AuthorizationTexts(input, shown)[i])
  {
    NameUtf8(input.clientId, 127);
    NameUtf8(input.project, 127);
    NameUtf8(input.requestedFeature, 15);
    SpkiUtf8(rules, input.publicKeySpki);
    UriUtf8(input.redirectUri);
    TokenField(input.state, 32);
    TokenField(input.codeChallenge, 32);
    MethodUtf8();
    NineUtf8(input.clientId, input.project, input.requestedFeature, input.publicKeySpki, shown, input.redirectUri,
             input.state, input.codeChallenge, "S256");
  }

  lemma MethodUtf8()
    ensures IsUtf8("S256")
  {
    AsciiText("S256");
  }

  lemma {:induction false} NineUtf8(a: string, b: string, c: string, d: string, e: string, f: string,
                                    g: string, h: string, k: string)
    requires IsUtf8(a) && IsUtf8(b) && IsUtf8(c) && IsUtf8(d) && IsUtf8(e) && IsUtf8(f) && IsUtf8(g) && IsUtf8(h)
    requires IsUtf8(k)
    ensures forall i | 0 <= i < 9 :: IsUtf8([a, b, c, d, e, f, g, h, k][i])
  {
  }

  lemma {:induction false} NameUtf8(text: string, maximum: nat)
    requires IsName(text, maximum)
    ensures IsUtf8(text)
  {
    AsciiText(text);
  }

  lemma {:induction false} SpkiUtf8(rules: Rules, text: string)
    requires SpkiText(rules, text)
    ensures IsUtf8(text)
  {
    var b: seq<byte> :| |b| == 91 && Url64(b) == text && rules.canonicalSpki(b) == Some(b);
    SpkiIsAscii(b);
    AsciiText(text);
  }

  lemma {:induction false} UriUtf8(uri: string)
    requires LoopbackUri(uri)
    ensures IsUtf8(uri)
  {
    LoopbackIsUnescaped(uri);
    AsciiText(uri);
  }

  // ----- The challenge requests -----

  const RENEW_KEYS := ["purpose", "binding_id", "operation_id"]
  const EXCHANGE_KEYS := ["purpose", "attempt_handle", "operation_id"]

  /** A text of the validated alphabets needs no quoting. */
  method AppendPlain(prefix: string, keys: seq<string>, texts: seq<string>, n: nat) returns (out: string)
    requires Written(prefix, keys, texts, n) && n < |keys| && KeyText(keys[n]) && Unescaped(texts[n])
    ensures Written(out, keys, texts, n + 1) && |out| <= |prefix| + |texts[n]| + 38
  {
    WrittenMore(prefix, keys, texts, n);
    NothingQuoted(texts[n]);
    out := prefix + Head(n == 0, keys[n]) + ("\"" + texts[n] + "\"");
  }

  method WriteThree(keys: seq<string>, texts: seq<string>) returns (out: string)
    requires |keys| == |texts| == 3
    requires forall i | 0 <= i < 3 :: KeyText(keys[i]) && Unescaped(texts[i])
    ensures out == Print(TextObject(keys, texts))
    ensures |out| <= |texts[0]| + |texts[1]| + |texts[2]| + 115
  {
    out := AppendPlain("", keys, texts, 0);
    out := AppendPlain(out, keys, texts, 1);
    out := AppendPlain(out, keys, texts, 2);
    assert keys[..3] == keys && texts[..3] == texts;
    out := out + "}";
  }

  lemma ChallengeKeys()
    ensures forall i | 0 <= i < 3 :: KeyText(RENEW_KEYS[i]) && KeyText(EXCHANGE_KEYS[i])
    ensures Unescaped("renew") && Unescaped("exchange")
    ensures AllDistinct(RENEW_KEYS) && AllDistinct(EXCHANGE_KEYS)
  {
  }

  lemma TokenUnescaped(value: string, bytes: nat)
    requires IsToken(value, bytes)
    ensures Unescaped(value)
  {
  }

  lemma ThreeFields(keys: seq<string>, texts: seq<string>)
    requires |keys| == |texts| == 3 && AllDistinct(keys)
    requires forall i | 0 <= i < 3 :: KeyText(keys[i]) && IsUtf8(texts[i])
    requires |Print(TextObject(keys, texts))| <= MAX_TEXT
    ensures Parse(Print(TextObject(keys, texts))) ==
            Some(Object(map[keys[0] := Text(texts[0]), keys[1] := Text(texts[1]), keys[2] := Text(texts[2])]))
  {
    AsciiKeysParse(keys, texts);
    ThreeFieldsOf(Parse(Print(TextObject(keys, texts))).value, keys, texts);
  }

  lemma ThreeFieldsOf(value: Value, keys: seq<string>, texts: seq<string>)
    requires |keys| == |texts| == 3 && AllDistinct(keys) && Holds(value, keys, texts)
    ensures value == Object(map[keys[0] := Text(texts[0]), keys[1] := Text(texts[1]), keys[2] := Text(texts[2])])
  {
    assert value.fields.Keys == {keys[0], keys[1], keys[2]};
  }

  method WriteChallenge(keys: seq<string>, texts: seq<string>, ghost bytes: nat) returns (out: string)
    requires keys in {RENEW_KEYS, EXCHANGE_KEYS} && |texts| == 3 && texts[0] in {"renew", "exchange"}
    requires IsToken(texts[1], bytes) && IsToken(texts[2], 32)
    ensures Parse(out) ==
            Some(Object(map[keys[0] := Text(texts[0]), keys[1] := Text(texts[1]), keys[2] := Text(texts[2])]))
    ensures out == Print(TextObject(keys, texts))
  {
    ChallengeKeys();
    ChallengeTexts(texts, bytes);
    out := WriteThree(keys, texts);
    ThreeFields(keys, texts);
  }

  lemma {:induction false} TokenText(value: string, bytes: nat)
    requires IsToken(value, bytes)
    ensures Unescaped(value) && IsUtf8(value) && |value| <= MAX_FIELD
  {
    TokenUnescaped(value, bytes);
    TokenField(value, bytes);
  }

  lemma {:induction false} PurposeText(text: string)
    requires text in {"renew", "exchange"}
    ensures Unescaped(text) && IsUtf8(text) && |text| <= 8
  {
    ChallengeKeys();
    AsciiText(text);
  }

  lemma ChallengeTexts(texts: seq<string>, bytes: nat)
    requires |texts| == 3 && texts[0] in {"renew", "exchange"}
    requires IsToken(texts[1], bytes) && IsToken(texts[2], 32)
    ensures forall i | 0 <= i < 3 :: Unescaped(texts[i]) && IsUtf8(texts[i]) && |texts[i]| <= MAX_FIELD
  {
    PurposeText(texts[0]);
    TokenText(texts[1], bytes);
    TokenText(texts[2], 32);
  }

  method EncodeBoundRenewChallenge(input: RenewInput) returns (out: Option<string>)
    ensures out.Some? <==> Transcript.ValidOperation(Transcript.Renew(input))
    ensures out.Some? ==>
              && out.value == Print(TextObject(RENEW_KEYS, ["renew", input.bindingId, input.operationId]))
              && Parse(out.value) ==
                 Some(Object(map["purpose" := Text("renew"), "binding_id" := Text(input.bindingId),
                                 "operation_id" := Text(input.operationId)]))
  {
    out := None;
    if Transcript.ValidOperation(Transcript.Renew(input)) {
      var text := WriteChallenge(RENEW_KEYS, ["renew", input.bindingId, input.operationId], 16);
      out := Some(text);
    }
  }

  method EncodeBoundExchangeChallenge(input: ExchangeInput) returns (out: Option<string>)
    ensures out.Some? <==> Transcript.ValidOperation(Transcript.Exchange(input)) && LoopbackUri(input.redirectUri)
    ensures out.Some? ==>
              && out.value == Print(TextObject(EXCHANGE_KEYS, ["exchange", input.attemptHandle, input.operationId]))
              && Parse(out.value) ==
                 Some(Object(map["purpose" := Text("exchange"), "attempt_handle" := Text(input.attemptHandle),
                                 "operation_id" := Text(input.operationId)]))
  {
    out := None;
    if Transcript.ValidOperation(Transcript.Exchange(input)) && LoopbackUri(input.redirectUri) {
      var text := WriteChallenge(EXCHANGE_KEYS, ["exchange", input.attemptHandle, input.operationId], 32);
      out := Some(text);
    }
  }
}
