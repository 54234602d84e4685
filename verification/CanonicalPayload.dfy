/**
 The canonical payload of a version 201 license (`v201_canonical_payload.cpp`): length-framed fields in a fixed order.
 The payload determines the fields it was built from, and does not depend on the order in which they were given.

 `Rules` stands for the validators of single values and of combinations of fields; everything here holds for any rules.
 */
module CanonicalPayload {
  import opened Wrappers
  import opened Texts

  datatype Field = Field(key: string, value: string)

  datatype Rules = Rules(value: (string, string) -> bool, combination: map<string, string> -> bool)

  const DOMAIN := "licensecc:v201\n"
  const MAX_VALUE := 4096
  const MAX_PAYLOAD := 16384

  const CANONICAL_ORDER: seq<string> := [
    "lic_ver", "canonical-v", "sig-v", "sig-alg", "key-id", "project", "feature", "valid-from", "valid-to",
    "start-version", "end-version", "custom-limit", "client-signature", "client-signature-source-strength",
    "extra-data"
  ]

  const REQUIRED: seq<string> := ["lic_ver", "canonical-v", "sig-v", "sig-alg", "key-id", "project", "feature"]

  // ----- Frames -----

  /** The `digits` low hexadecimal digits of a number. */
  function HexDigits(n: nat, digits: nat): (s: string)
    ensures |s| == digits
  {
    if digits == 0 then "" else HexDigits(n / 16, digits - 1) + [HEX[n % 16]]
  }

  /** Eight hexadecimal digits. */
  function FrameLength(n: nat): (s: string)
    ensures |s| == 8
  {
    HexDigits(n, 8)
  }

  lemma HexInjective(a: nat, b: nat)
    requires a < 16 && b < 16 && HEX[a] == HEX[b]
    ensures a == b
  {
  }

  lemma {:induction false} HexDigitsDetermine(m: nat, n: nat, digits: nat)
    requires m < Power16(digits) && n < Power16(digits) && HexDigits(m, digits) == HexDigits(n, digits)
    ensures m == n
  {
    if digits > 0 {
      var s, t := HexDigits(m, digits), HexDigits(n, digits);
      assert s[..digits - 1] == HexDigits(m / 16, digits - 1) && t[..digits - 1] == HexDigits(n / 16, digits - 1);
      assert s[digits - 1] == HEX[m % 16] && t[digits - 1] == HEX[n % 16];
      HexInjective(m % 16, n % 16);
      DivideBound(m, Power16(digits - 1));
      DivideBound(n, Power16(digits - 1));
      HexDigitsDetermine(m / 16, n / 16, digits - 1);
      assert m == m / 16 * 16 + m % 16 && n == n / 16 * 16 + n % 16;
    }
  }

  lemma DivideBound(n: nat, bound: nat)
    requires n < 16 * bound
    ensures n / 16 < bound
  {
  }

  lemma FrameDetermines(m: nat, n: nat)
    requires m <= MAX_VALUE && n <= MAX_VALUE && FrameLength(m) == FrameLength(n)
    ensures m == n
  {
    assert Power16(4) == 16 * Power16(3) && Power16(3) == 16 * Power16(2) && Power16(2) == 16 * Power16(1);
    assert Power16(8) == 16 * Power16(7) && Power16(7) == 16 * Power16(6) && Power16(6) == 16 * Power16(5);
    assert Power16(5) == 16 * Power16(4);
    HexDigitsDetermine(m, n, 8);
  }

  function Frame(tag: char, text: string): string {
    [tag] + FrameLength(|text|) + ":" + text
  }

  function FieldText(f: Field): string {
    Frame('k', f.key) + Frame('v', f.value) + "\n"
  }

  function FieldTexts(fields: seq<Field>): (s: string)
    ensures fields != [] ==> s != ""
  {
    if fields == [] then "" else FieldText(fields[0]) + FieldTexts(fields[1..])
  }

  lemma FrameSplits(tag: char, x: string, a: string, y: string, b: string)
    requires |x| <= MAX_VALUE && |y| <= MAX_VALUE && Frame(tag, x) + a == Frame(tag, y) + b
    ensures x == y && a == b
  {
    var s, t := Frame(tag, x) + a, Frame(tag, y) + b;
    assert s[1..9] == FrameLength(|x|) && t[1..9] == FrameLength(|y|);
    FrameDetermines(|x|, |y|);
    assert s[10..10 + |x|] == x && t[10..10 + |y|] == y;
    assert s[10 + |x|..] == a && t[10 + |y|..] == b;
  }

  ghost predicate Short(fields: seq<Field>) {
    forall f | f in fields :: |f.key| <= MAX_VALUE && |f.value| <= MAX_VALUE
  }

  lemma FieldSplits(f: Field, a: string, g: Field, b: string)
    requires Short([f, g]) && FieldText(f) + a == FieldText(g) + b
    ensures f == g && a == b
  {
    assert f in [f, g] && g in [f, g];
    assert FieldText(f) + a == Frame('k', f.key) + (Frame('v', f.value) + ("\n" + a));
    assert FieldText(g) + b == Frame('k', g.key) + (Frame('v', g.value) + ("\n" + b));
    FrameSplits('k', f.key, Frame('v', f.value) + ("\n" + a), g.key, Frame('v', g.value) + ("\n" + b));
    FrameSplits('v', f.value, "\n" + a, g.value, "\n" + b);
    assert a == ("\n" + a)[1..] && b == ("\n" + b)[1..];
  }

  /** Framed fields determine the list of fields. */
  lemma {:induction false} FieldTextsDetermine(fs: seq<Field>, gs: seq<Field>)
    requires Short(fs) && Short(gs) && FieldTexts(fs) == FieldTexts(gs)
    ensures fs == gs
  {
    if fs != [] && gs != [] {
      FieldSplits(fs[0], FieldTexts(fs[1..]), gs[0], FieldTexts(gs[1..]));
      FieldTextsDetermine(fs[1..], gs[1..]);
    }
  }

  // ----- From fields to a payload -----

  /** The fields of a map, in a given order. */
  function Selected(order: seq<string>, m: map<string, string>): seq<Field> {
    if order == [] then []
    else if order[0] in m then [Field(order[0], m[order[0]])] + Selected(order[1..], m)
    else Selected(order[1..], m)
  }

  function Payload(m: map<string, string>): string {
    DOMAIN + FieldTexts(Selected(CANONICAL_ORDER, m))
  }

  predicate DistinctTexts(texts: seq<string>) {
    texts == [] || (texts[0] !in texts[1..] && DistinctTexts(texts[1..]))
  }

  lemma {:induction false} SelectedKeys(order: seq<string>, m: map<string, string>)
    ensures forall f | f in Selected(order, m) :: f.key in order && f.key in m && m[f.key] == f.value
  {
    if order != [] {
      SelectedKeys(order[1..], m);
    }
  }

  lemma {:induction false} FirstSelected(order: seq<string>, m: map<string, string>)
    requires order != [] && DistinctTexts(order)
    ensures order[0] in m <==> Selected(order, m) != [] && Selected(order, m)[0].key == order[0]
  {
    SelectedKeys(order[1..], m);
    if order[0] !in m && Selected(order, m) != [] {
      assert Selected(order, m)[0] in Selected(order[1..], m);
    }
  }

  lemma {:induction false} SelectedDetermine(order: seq<string>, m: map<string, string>, n: map<string, string>)
    requires DistinctTexts(order) && Selected(order, m) == Selected(order, n)
    ensures forall key | key in order :: (key in m <==> key in n) && (key in m ==> m[key] == n[key])
  {
    if order != [] {
      var k, rest := order[0], order[1..];
      FirstSelected(order, m);
      FirstSelected(order, n);
      if k in m {
        assert Selected(rest, m) == Selected(order, m)[1..] && Selected(rest, n) == Selected(order, n)[1..];
      }
      SelectedDetermine(rest, m, n);
    }
  }

  /** The fields a list gives, if it gives no key twice. */
  function ByKey(fields: seq<Field>): map<string, string> {
    if fields == [] then map[]
    else ByKey(fields[..|fields| - 1])[fields[|fields| - 1].key := fields[|fields| - 1].value]
  }

  predicate DistinctKeys(fields: seq<Field>) {
    forall i, j | 0 <= i < j < |fields| :: fields[i].key != fields[j].key
  }

  predicate ValidField(rules: Rules, f: Field) {
    && f.key in CANONICAL_ORDER
    && f.value != "" && |f.value| <= MAX_VALUE
    && (forall i | 0 <= i < |f.value| :: 0x20 <= f.value[i] as int <= 0x7e)
    && rules.value(f.key, f.value)
  }

  /** What the builder demands of the given fields. */
  predicate Acceptable(rules: Rules, fields: seq<Field>) {
    && (forall f | f in fields :: ValidField(rules, f))
    && DistinctKeys(fields)
    && (forall key | key in REQUIRED :: key in ByKey(fields))
    && rules.combination(ByKey(fields))
    && |Payload(ByKey(fields))| <= MAX_PAYLOAD
  }

  lemma {:induction false} ByKeyHolds(fields: seq<Field>)
    ensures forall f | f in fields :: f.key in ByKey(fields)
    ensures DistinctKeys(fields) ==>
              forall f :: f in fields <==> f.key in ByKey(fields) && ByKey(fields)[f.key] == f.value
    ensures forall key | key in ByKey(fields) :: exists f :: f in fields && f.key == key
  {
    if fields != [] {
      ByKeyHolds(fields[..|fields| - 1]);
    }
  }

  // ----- The builder -----

  method CheckField(rules: Rules, f: Field) returns (ok: bool)
    ensures ok == ValidField(rules, f)
  {
    if f.key !in CANONICAL_ORDER || f.value == "" || |f.value| > MAX_VALUE {
      return false;
    }
    for i := 0 to |f.value|
      invariant forall k | 0 <= k < i :: 0x20 <= f.value[k] as int <= 0x7e
    {
      if f.value[i] as int < 0x20 || f.value[i] as int > 0x7e {
        return false;
      }
    }
    ok := rules.value(f.key, f.value);
  }

  /** Collects the fields, refusing an invalid or repeated one. */
  method Collect(rules: Rules, fields: seq<Field>) returns (byKey: Option<map<string, string>>)
    ensures byKey == if (forall f | f in fields :: ValidField(rules, f)) && DistinctKeys(fields)
                     then Some(ByKey(fields)) else None
  {
    var found: map<string, string> := map[];
    for i := 0 to |fields|
      invariant forall f | f in fields[..i] :: ValidField(rules, f)
      invariant DistinctKeys(fields[..i]) && found == ByKey(fields[..i])
    {
      var ok := CheckField(rules, fields[i]);
      ByKeyHolds(fields[..i]);
      assert fields[..i + 1] == fields[..i] + [fields[i]];
      if !ok {
        assert fields[i] in fields;
        return None;
      }
      if fields[i].key in found {
        var f :| f in fields[..i] && f.key == fields[i].key;
        return None;
      }
      found := found[fields[i].key := fields[i].value];
    }
    assert fields[..|fields|] == fields;
    byKey := Some(found);
  }

  lemma {:induction false} FieldTextsConcat(fs: seq<Field>, gs: seq<Field>)
    ensures FieldTexts(fs + gs) == FieldTexts(fs) + FieldTexts(gs)
  {
    if fs == [] {
      assert fs + gs == gs;
    } else {
      assert (fs + gs)[1..] == fs[1..] + gs;
      FieldTextsConcat(fs[1..], gs);
    }
  }

  /** Appends the fields of the map in the given order. */
  method AppendOrdered(prefix: string, order: seq<string>, m: map<string, string>) returns (out: string)
    ensures out == prefix + FieldTexts(Selected(order, m))
  {
    out := prefix;
    assert order[0..] == order;
    for i := 0 to |order|
      invariant prefix + FieldTexts(Selected(order, m)) == out + FieldTexts(Selected(order[i..], m))
    {
      assert order[i..][1..] == order[i + 1..];
      if order[i] in m {
        var f := Field(order[i], m[order[i]]);
        FieldTextsConcat([f], Selected(order[i + 1..], m));
        assert FieldTexts([f]) == FieldText(f) + "";
        out := out + FieldText(f);
      }
    }
  }

  method BuildCanonicalPayload(rules: Rules, fields: seq<Field>) returns (bytes: Option<string>)
    ensures bytes == if Acceptable(rules, fields) then Some(Payload(ByKey(fields))) else None
  {
    var byKey := Collect(rules, fields);
    if byKey.None? {
      return None;
    }
    for i := 0 to |REQUIRED|
      invariant forall k | 0 <= k < i :: REQUIRED[k] in byKey.value
    {
      if REQUIRED[i] !in byKey.value {
        return None;
      }
    }
    if !rules.combination(byKey.value) {
      return None;
    }
    var payload := AppendOrdered(DOMAIN, CANONICAL_ORDER, byKey.value);
    bytes := if |payload| > MAX_PAYLOAD then None else Some(payload);
  }

  // ----- What stands in a payload -----

  /** Eight lower-case hexadecimal digits, most significant first. */
  lemma FrameIsHexadecimal(n: nat)
    ensures var digits := "0123456789abcdef";
            FrameLength(n) ==
            [digits[n / 0x1000_0000 % 16], digits[n / 0x100_0000 % 16], digits[n / 0x10_0000 % 16],
             digits[n / 0x1_0000 % 16], digits[n / 0x1000 % 16], digits[n / 0x100 % 16], digits[n / 0x10 % 16],
             digits[n % 16]]
  {
    TwoDigits(n, 6);
    TwoDigits(n / 0x100, 4);
    TwoDigits(n / 0x100 / 0x100, 2);
    TwoDigits(n / 0x100 / 0x100 / 0x100, 0);
    Quotients(n);
  }

  lemma {:induction false} TwoDigits(n: nat, more: nat)
    ensures HexDigits(n, more + 2) == HexDigits(n / 0x100, more) + [HEX[n / 0x10 % 16], HEX[n % 16]]
  {
    assert HexDigits(n, more + 2) == HexDigits(n / 16, more + 1) + [HEX[n % 16]];
    assert n / 16 / 16 == n / 0x100;
  }

  lemma Quotients(n: nat)
    ensures n / 0x100 / 0x100 == n / 0x1_0000 && n / 0x1_0000 / 0x100 == n / 0x100_0000
    ensures n / 0x100 / 0x10 == n / 0x1000 && n / 0x1_0000 / 0x10 == n / 0x10_0000
    ensures n / 0x100_0000 / 0x10 == n / 0x1000_0000
  {
  }

  /** The order of the fields, the domain and the frames. */
  lemma {:induction false} PayloadLayout(m: map<string, string>, f: Field)
    ensures Payload(m) ==
            "licensecc:v201\n" +
            FieldTexts(Selected(["lic_ver", "canonical-v", "sig-v", "sig-alg", "key-id", "project", "feature",
                                 "valid-from", "valid-to", "start-version", "end-version", "custom-limit",
                                 "client-signature", "client-signature-source-strength", "extra-data"], m))
    ensures FieldText(f) ==
            ("k" + FrameLength(|f.key|) + ":" + f.key) + ("v" + FrameLength(|f.value|) + ":" + f.value) + "\n"
  {
  }

  /** The demands on the fields: the first seven keys are needed, values are printable ASCII within the limits. */
  lemma {:induction false} AcceptableRules(rules: Rules, fields: seq<Field>)
    ensures Acceptable(rules, fields) <==>
            && DistinctKeys(fields) && rules.combination(ByKey(fields)) && |Payload(ByKey(fields))| <= 16384
            && (forall f | f in fields ::
                  && f.key in CANONICAL_ORDER && 1 <= |f.value| <= 4096 && rules.value(f.key, f.value)
                  && forall i | 0 <= i < |f.value| :: ' ' <= f.value[i] <= '~')
            && (forall key | key in CANONICAL_ORDER[..7] :: key in ByKey(fields))
  {
    assert CANONICAL_ORDER[..7] == REQUIRED;
  }

  // ----- What the payload means -----

  /** The length and the first character of a canonical key tell it from the others. */
  const LENGTHS: seq<nat> := [7, 11, 5, 7, 6, 7, 7, 10, 8, 13, 11, 12, 16, 32, 10]
  const INITIALS := "lcsskpfvvseccce"

  lemma MarkOfKey(i: nat)
    requires i < 15
    ensures |CANONICAL_ORDER| == 15 && |CANONICAL_ORDER[i]| == LENGTHS[i] <= 32 && CANONICAL_ORDER[i][0] == INITIALS[i]
  {
  }

  lemma MarksDiffer(i: nat, j: nat)
    requires i < j < 15
    ensures LENGTHS[i] != LENGTHS[j] || INITIALS[i] != INITIALS[j]
  {
  }

  lemma {:induction false} DistinctByIndex(texts: seq<string>)
    requires forall i, j | 0 <= i < j < |texts| :: texts[i] != texts[j]
    ensures DistinctTexts(texts)
  {
    if texts != [] {
      DistinctByIndex(texts[1..]);
    }
  }

  lemma OrderIsDistinct()
    ensures DistinctTexts(CANONICAL_ORDER)
  {
    forall i, j | 0 <= i < j < |CANONICAL_ORDER|
      ensures CANONICAL_ORDER[i] != CANONICAL_ORDER[j]
    {
      MarkOfKey(i);
      MarkOfKey(j);
      MarksDiffer(i, j);
    }
    DistinctByIndex(CANONICAL_ORDER);
  }

  lemma KeyIsShort(key: string)
    requires key in CANONICAL_ORDER
    ensures |key| <= 32
  {
    var i :| 0 <= i < |CANONICAL_ORDER| && CANONICAL_ORDER[i] == key;
    MarkOfKey(i);
  }

  lemma {:induction false} ShortFields(rules: Rules, fields: seq<Field>, order: seq<string>)
    requires (forall f | f in fields :: ValidField(rules, f)) && DistinctKeys(fields)
    ensures Short(Selected(order, ByKey(fields)))
    ensures forall key | key in ByKey(fields) :: key in CANONICAL_ORDER
  {
    ByKeyHolds(fields);
    SelectedKeys(order, ByKey(fields));
    forall f | f in Selected(order, ByKey(fields))
      ensures |f.key| <= MAX_VALUE && |f.value| <= MAX_VALUE
    {
      assert f in fields && ValidField(rules, f);
      KeyIsShort(f.key);
    }
  }

  lemma {:induction false} CountDistinct(fields: seq<Field>, f: Field)
    requires DistinctKeys(fields)
    ensures multiset(fields)[f] == if f in fields then 1 else 0
  {
    if fields != [] {
      var n := |fields| - 1;
      CountDistinct(fields[..n], f);
      assert fields == fields[..n] + [fields[n]];
    }
  }

  lemma {:induction false} CountTwice(fields: seq<Field>, i: nat, j: nat)
    requires i < j < |fields| && fields[i] == fields[j]
    ensures multiset(fields)[fields[i]] >= 2
  {
    assert fields == fields[..j] + fields[j..];
    assert fields[i] == fields[..j][i] && fields[j] == fields[j..][0];
    assert fields[i] in fields[..j] && fields[j] in fields[j..];
  }

  lemma PermutationKeepsDistinct(fs: seq<Field>, gs: seq<Field>)
    requires multiset(fs) == multiset(gs) && DistinctKeys(fs)
    ensures DistinctKeys(gs)
  {
    forall i, j | 0 <= i < j < |gs|
      ensures gs[i].key != gs[j].key
    {
      assert gs[i] in multiset(fs) && gs[j] in multiset(fs);
      if gs[i] == gs[j] {
        CountTwice(gs, i, j);
        CountDistinct(fs, gs[i]);
      }
    }
  }

  lemma {:induction false} SameMap(fs: seq<Field>, gs: seq<Field>)
    requires DistinctKeys(fs) && DistinctKeys(gs) && forall f :: f in fs <==> f in gs
    ensures ByKey(fs) == ByKey(gs)
  {
    ByKeyHolds(fs);
    ByKeyHolds(gs);
    var m, n := ByKey(fs), ByKey(gs);
    forall key | key in m ensures key in n && n[key] == m[key] {
      assert Field(key, m[key]) in fs;
    }
    forall key | key in n ensures key in m {
      assert Field(key, n[key]) in gs;
    }
  }

  /** Giving the same fields in another order changes neither acceptance nor the payload. */
  lemma {:induction false} PayloadIgnoresOrder(rules: Rules, fs: seq<Field>, gs: seq<Field>)
    requires multiset(fs) == multiset(gs) && Acceptable(rules, fs)
    ensures Acceptable(rules, gs) && Payload(ByKey(gs)) == Payload(ByKey(fs))
  {
    PermutationKeepsDistinct(fs, gs);
    forall f ensures f in fs <==> f in gs {
      assert f in fs <==> f in multiset(fs);
      assert f in gs <==> f in multiset(gs);
    }
    SameMap(fs, gs);
  }

  /** Two accepted lists have the same payload exactly when they give the same fields. */
  lemma {:induction false} PayloadDetermines(rules: Rules, fs: seq<Field>, gs: seq<Field>)
    requires Acceptable(rules, fs) && Acceptable(rules, gs)
    ensures Payload(ByKey(fs)) == Payload(ByKey(gs)) <==> multiset(fs) == multiset(gs)
  {
    if multiset(fs) == multiset(gs) {
      PayloadIgnoresOrder(rules, fs, gs);
    }
    if Payload(ByKey(fs)) == Payload(ByKey(gs)) {
      SamePayload(rules, fs, gs);
      ByKeyHolds(fs);
      ByKeyHolds(gs);
      forall f ensures multiset(fs)[f] == multiset(gs)[f] {
        CountDistinct(fs, f);
        CountDistinct(gs, f);
      }
    }
  }

  lemma {:induction false} SamePayload(rules: Rules, fs: seq<Field>, gs: seq<Field>)
    requires Acceptable(rules, fs) && Acceptable(rules, gs) && Payload(ByKey(fs)) == Payload(ByKey(gs))
    ensures ByKey(fs) == ByKey(gs)
  {
    var xs, ys := Selected(CANONICAL_ORDER, ByKey(fs)), Selected(CANONICAL_ORDER, ByKey(gs));
    ShortFields(rules, fs, CANONICAL_ORDER);
    ShortFields(rules, gs, CANONICAL_ORDER);
    OrderIsDistinct();
    assert FieldTexts(xs) == Payload(ByKey(fs))[|DOMAIN|..] && FieldTexts(ys) == Payload(ByKey(gs))[|DOMAIN|..];
    FieldTextsDetermine(xs, ys);
    SelectedDetermine(CANONICAL_ORDER, ByKey(fs), ByKey(gs));
  }
}
