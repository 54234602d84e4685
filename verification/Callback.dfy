/**
 The browser callback of an enrollment (`bound_enrollment.cpp`): the registered redirect URI with exactly two
 parameters, a code and a state, in either order.
 */
module Callback {
  import opened Wrappers
  import opened UrlFields
  import opened TextRules

  datatype Answer = Answer(code: string, state: string)

  const MAX_URI := 2048

  predicate ValidAnswer(a: Answer) {
    IsToken(a.code, 32) && IsToken(a.state, 32)
  }

  /** The two spellings of an answer. */
  predicate Spells(uri: string, redirect: string, a: Answer) {
    || uri == redirect + "?" + ("code=" + a.code + "&" + ("state=" + a.state))
    || uri == redirect + "?" + ("state=" + a.state + "&" + ("code=" + a.code))
  }

  datatype Pair = Pair(name: string, value: string)

  /** A name and a value around the first equals sign. */
  function PairOf(s: string): Option<Pair> {
    var equal := Find(s, '=');
    if equal == |s| then None else Some(Pair(s[..equal], s[equal + 1..]))
  }

  /** One parameter taken over: a name may be filled once. */
  function Take(a: Answer, pair: string): Option<Answer> {
    var p := PairOf(pair);
    if p.None? then None
    else if p.value.name == "code" && a.code == "" then Some(a.(code := p.value.value))
    else if p.value.name == "state" && a.state == "" then Some(a.(state := p.value.value))
    else None
  }

  /** The parameters of a query of two pairs. */
  function ParseQuery(query: string): Option<Answer> {
    var amp := Find(query, '&');
    if amp == |query| || '&' in query[amp + 1..] then None
    else
      var first := Take(Answer("", ""), query[..amp]);
      if first.None? then None else Take(first.value, query[amp + 1..])
  }

  function ParseCallback(uri: string, redirect: string): Option<Answer> {
    if |uri| > MAX_URI || |uri| <= |redirect| || uri[..|redirect|] != redirect || uri[|redirect|] != '?' then None
    else
      var a := ParseQuery(uri[|redirect| + 1..]);
      if a.None? || !ValidAnswer(a.value) then None else a
  }

  lemma PairReads(name: string, value: string)
    requires '=' !in name
    ensures PairOf(name + "=" + value) == Some(Pair(name, value))
  {
    FindFirst(name, value, '=');
    var s := name + "=" + value;
    assert s[..|name|] == name && s[|name| + 1..] == value;
  }

  lemma PairSpells(s: string)
    requires PairOf(s).Some?
    ensures s == PairOf(s).value.name + "=" + PairOf(s).value.value
  {
    var equal := Find(s, '=');
    assert s == s[..equal] + [s[equal]] + s[equal + 1..];
  }

  lemma QueryReads(x: string, y: string)
    requires '&' !in x && '&' !in y
    ensures ParseQuery(x + "&" + y) ==
            var first := Take(Answer("", ""), x); if first.None? then None else Take(first.value, y)
  {
    FindFirst(x, y, '&');
    var q := x + "&" + y;
    assert q[..|x|] == x && q[|x| + 1..] == y;
  }

  lemma TokenHasNo(value: string, c: char)
    requires IsToken(value, 32) && (c == '&' || c == '=')
    ensures c !in value && value != ""
  {
  }

  lemma TakeSpells(a: Answer, pair: string)
    requires Take(a, pair).Some?
    ensures var b := Take(a, pair).value;
            || (a.code == "" && pair == "code=" + b.code && b.state == a.state)
            || (a.state == "" && pair == "state=" + b.state && b.code == a.code)
  {
    PairSpells(pair);
    var p := PairOf(pair).value;
    assert "code" + "=" + p.value == "code=" + p.value && "state" + "=" + p.value == "state=" + p.value;
  }

  /** Two parameters that give a valid answer are a code and a state. */
  lemma TwoTakes(x: string, y: string, a: Answer)
    requires ValidAnswer(a)
    requires var first := Take(Answer("", ""), x); first.Some? && Take(first.value, y) == Some(a)
    ensures || (x == "code=" + a.code && y == "state=" + a.state)
            || (x == "state=" + a.state && y == "code=" + a.code)
  {
    TakeSpells(Answer("", ""), x);
    TakeSpells(Take(Answer("", ""), x).value, y);
    TokenHasNo(a.code, '&');
    TokenHasNo(a.state, '&');
  }

  lemma TakeCode(code: string, state: string)
    ensures Take(Answer("", state), "code=" + code) == Some(Answer(code, state))
  {
    PairReads("code", code);
    assert "code" + "=" + code == "code=" + code;
  }

  lemma TakeState(code: string, state: string)
    ensures Take(Answer(code, ""), "state=" + state) == Some(Answer(code, state))
  {
    PairReads("state", state);
    assert "state" + "=" + state == "state=" + state;
  }

  lemma TakesOfSpelled(a: Answer)
    ensures Take(Answer("", ""), "code=" + a.code) == Some(Answer(a.code, ""))
    ensures Take(Answer(a.code, ""), "state=" + a.state) == Some(a)
    ensures Take(Answer("", ""), "state=" + a.state) == Some(Answer("", a.state))
    ensures Take(Answer("", a.state), "code=" + a.code) == Some(a)
  {
    TakeCode(a.code, "");
    TakeState(a.code, a.state);
    TakeState("", a.state);
    TakeCode(a.code, a.state);
  }

  lemma PartsHaveNoAmp(a: Answer)
    requires ValidAnswer(a)
    ensures '&' !in "code=" + a.code && '&' !in "state=" + a.state
  {
    TokenHasNo(a.code, '&');
    TokenHasNo(a.state, '&');
  }

  lemma {:induction false} QueryCuts(query: string)
    requires ParseQuery(query).Some?
    ensures var amp := Find(query, '&');
            && amp < |query| && query == query[..amp] + "&" + query[amp + 1..]
            && Take(Answer("", ""), query[..amp]).Some?
            && Take(Take(Answer("", ""), query[..amp]).value, query[amp + 1..]) == ParseQuery(query)
  {
    CutFirst(query, '&');
  }

  lemma {:induction false} CutFirst(s: string, c: char)
    requires Find(s, c) < |s|
    ensures s == s[..Find(s, c)] + [c] + s[Find(s, c) + 1..]
  {
  }

  lemma QuerySpells(query: string, a: Answer)
    requires ValidAnswer(a) && ParseQuery(query) == Some(a)
    ensures || query == "code=" + a.code + "&" + ("state=" + a.state)
            || query == "state=" + a.state + "&" + ("code=" + a.code)
  {
    QueryCuts(query);
    var amp := Find(query, '&');
    TwoTakes(query[..amp], query[amp + 1..], a);
  }

  lemma SpelledQueryReads(a: Answer)
    requires ValidAnswer(a)
    ensures ParseQuery("code=" + a.code + "&" + ("state=" + a.state)) == Some(a)
    ensures ParseQuery("state=" + a.state + "&" + ("code=" + a.code)) == Some(a)
  {
    TakesOfSpelled(a);
    PartsHaveNoAmp(a);
    QueryReads("code=" + a.code, "state=" + a.state);
    QueryReads("state=" + a.state, "code=" + a.code);
  }

  lemma QueryDetermines(query: string, a: Answer)
    requires ValidAnswer(a)
    ensures ParseQuery(query) == Some(a) <==>
            || query == "code=" + a.code + "&" + ("state=" + a.state)
            || query == "state=" + a.state + "&" + ("code=" + a.code)
  {
    SpelledQueryReads(a);
    if ParseQuery(query) == Some(a) {
      QuerySpells(query, a);
    }
  }

  lemma AfterRedirect(uri: string, redirect: string, query: string)
    ensures uri == redirect + "?" + query <==>
            && |uri| > |redirect| && uri[..|redirect|] == redirect && uri[|redirect|] == '?'
            && query == uri[|redirect| + 1..]
  {
    if uri == redirect + "?" + query {
      assert uri[..|redirect|] == redirect && query == uri[|redirect| + 1..];
    } else if |uri| > |redirect| && uri[..|redirect|] == redirect && uri[|redirect|] == '?' {
      assert uri == redirect + "?" + uri[|redirect| + 1..];
    }
  }

  /** Accepts exactly the redirect with one valid code and one valid state, in either order. */
  lemma CallbackDetermines(uri: string, redirect: string, a: Answer)
    ensures ParseCallback(uri, redirect) == Some(a) <==>
            |uri| <= 2048 && IsToken(a.code, 32) && IsToken(a.state, 32) && Spells(uri, redirect, a)
  {
    AfterRedirect(uri, redirect, "code=" + a.code + "&" + ("state=" + a.state));
    AfterRedirect(uri, redirect, "state=" + a.state + "&" + ("code=" + a.code));
    if ValidAnswer(a) && |uri| > |redirect| {
      QueryDetermines(uri[|redirect| + 1..], a);
    }
  }
}
