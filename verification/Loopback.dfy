/**
 The redirect URIs of a desktop enrollment (`bound_encoding.cpp`): an explicit loopback address and port, and a path
 without dot segments.
 */
module Loopback {
  import opened Wrappers
  import opened SafeIntegers
  import opened TextRules

  const MAX_URI := 1024
  const IPV4 := "http://127.0.0.1:"
  const IPV6 := "http://[::1]:"

  predicate IsPathChar(c: char) {
    'a' <= c <= 'z' || 'A' <= c <= 'Z' || '0' <= c <= '9' || c in {'/', '-', '_', '.', '~'}
  }

  /** Reads segment after segment; an empty last segment ends the path. */
  predicate NoDotSegment(rest: string)
    decreases |rest|
  {
    rest == "" ||
    var end := Find(rest, '/');
    rest[..end] != "." && rest[..end] != ".." && (end == |rest| || NoDotSegment(rest[end + 1..]))
  }

  predicate UriPath(path: string) {
    && path != "" && path[0] == '/' && |path| <= MAX_URI
    && (forall i | 0 <= i < |path| :: IsPathChar(path[i]))
    && NoDotSegment(path[1..])
  }

  function AfterHost(uri: string): Option<string> {
    if IPV4 <= uri then Some(uri[|IPV4|..])
    else if IPV6 <= uri then Some(uri[|IPV6|..])
    else None
  }

  predicate PortAllowed(port: nat) {
    1 <= port <= 65535 && port != 80
  }

  predicate PortAndPath(s: string) {
    var slash := Find(s, '/');
    && slash < |s|
    && var port := SafeInteger(s[..slash]);
    && port.Some? && PortAllowed(port.value) && UriPath(s[slash..])
  }

  predicate LoopbackUri(uri: string) {
    |uri| <= MAX_URI && var rest := AfterHost(uri); rest.Some? && PortAndPath(rest.value)
  }

  // ----- What the checks accept -----

  /** The text begins with a dot segment. */
  predicate DotSegment(s: string) {
    s == "." || s == ".." || "./" <= s || "../" <= s
  }

  lemma {:induction false} FirstSegment(s: string)
    ensures var end := Find(s, '/'); DotSegment(s) <==> s[..end] == "." || s[..end] == ".."
  {
    var end := Find(s, '/');
    if "./" <= s {
      assert s[1] == '/' && s[0] == '.';
      assert s[..end] == ".";
    } else if "../" <= s {
      assert s[2] == '/' && s[0] == '.' && s[1] == '.';
      assert s[..end] == "..";
    }
    if s[..end] == "." && end < |s| {
      assert s[..2] == "./";
    }
    if s[..end] == ".." && end < |s| {
      assert s[..3] == "../";
    }
  }

  /** The segment loop rejects exactly the paths with a dot segment after some slash. */
  lemma {:induction false} DotSegmentsFound(s: string)
    ensures NoDotSegment(s) <==> !DotSegment(s) && forall i | 0 <= i < |s| && s[i] == '/' :: !DotSegment(s[i + 1..])
    decreases |s|
  {
    if s != "" {
      FirstSegment(s);
      var end := Find(s, '/');
      if end < |s| {
        var rest := s[end + 1..];
        DotSegmentsFound(rest);
        assert forall i | 0 <= i < |rest| :: rest[i] == s[end + 1 + i] && rest[i + 1..] == s[end + 1 + i + 1..];
        if NoDotSegment(s) {
          forall i | 0 <= i < |s| && s[i] == '/' ensures !DotSegment(s[i + 1..]) {
            if i > end {
              assert rest[i - end - 1] == '/' && rest[i - end..] == s[i + 1..];
            }
          }
        }
      }
    }
  }

  /** The characters of a path, one by one. */
  predicate PathCharacter(c: char) {
    c in {'a', 'b', 'c', 'd', 'e', 'f', 'g', 'h', 'i', 'j', 'k', 'l', 'm',
          'n', 'o', 'p', 'q', 'r', 's', 't', 'u', 'v', 'w', 'x', 'y', 'z', '/',
          'A', 'B', 'C', 'D', 'E', 'F', 'G', 'H', 'I', 'J', 'K', 'L', 'M',
          'N', 'O', 'P', 'Q', 'R', 'S', 'T', 'U', 'V', 'W', 'X', 'Y', 'Z', '-',
          '0', '1', '2', '3', '4', '5', '6', '7', '8', '9', '_', '.', '~'}
  }

  /** A path by its characters and segments: none is a dot or two dots. */
  predicate PathText(path: string) {
    && path != "" && path[0] == '/' && |path| <= 1024
    && (forall i | 0 <= i < |path| :: PathCharacter(path[i]))
    && forall i | 0 <= i < |path| && path[i] == '/' :: !DotSegment(path[i + 1..])
  }

  lemma PathCharacters(c: char)
    ensures IsPathChar(c) <==> PathCharacter(c)
  {
  }

  lemma SegmentsOfPath(path: string)
    requires path != "" && path[0] == '/'
    ensures NoDotSegment(path[1..]) <==> forall i | 0 <= i < |path| && path[i] == '/' :: !DotSegment(path[i + 1..])
  {
    var rest := path[1..];
    DotSegmentsFound(rest);
    assert forall i | 0 < i < |path| :: rest[i - 1] == path[i] && rest[i..] == path[i + 1..];
    if NoDotSegment(rest) {
      forall i | 0 <= i < |path| && path[i] == '/' ensures !DotSegment(path[i + 1..]) {
        if i > 0 {
          assert rest[i - 1] == '/' && rest[i - 1 + 1..] == path[i + 1..];
        }
      }
    } else if !DotSegment(rest) {
      var i :| 0 <= i < |rest| && rest[i] == '/' && DotSegment(rest[i + 1..]);
      assert path[i + 1] == '/' && path[i + 1 + 1..] == rest[i + 1..];
    }
  }

  lemma UriPathIsText(path: string)
    ensures UriPath(path) <==> PathText(path)
  {
    forall i | 0 <= i < |path|
      ensures IsPathChar(path[i]) <==> PathCharacter(path[i])
    {
      PathCharacters(path[i]);
    }
    if path != "" && path[0] == '/' {
      SegmentsOfPath(path);
    }
  }

  lemma {:induction false} DigitsHaveNoSlash(port: nat)
    ensures '/' !in Decimal(port)
  {
    var d := Decimal(port);
    assert forall i | 0 <= i < |d| :: IsDigit(d[i]);
  }

  lemma PortAndPathSpelled(s: string)
    ensures PortAndPath(s) <==>
            exists port: nat, path: string :: PortAllowed(port) && UriPath(path) && s == Decimal(port) + path
  {
    var slash := Find(s, '/');
    if PortAndPath(s) {
      var port := SafeInteger(s[..slash]).value;
      SafeIntegerIsDecimal(s[..slash], port);
      assert s == Decimal(port) + s[slash..];
    }
    forall port: nat, path: string | PortAllowed(port) && UriPath(path) && s == Decimal(port) + path
      ensures PortAndPath(s)
    {
      DigitsHaveNoSlash(port);
      assert s == Decimal(port) + [path[0]] + path[1..];
      FindFirst(Decimal(port), path[1..], '/');
      SafeIntegerIsDecimal(s[..slash], port);
      assert s[slash..] == path;
    }
  }

  /** The parts of a URI. */
  ghost predicate Spelled(uri: string, host: string, port: nat, path: string) {
    && host in {"http://127.0.0.1:", "http://[::1]:"} && 1 <= port <= 65535 && port != 80 && PathText(path)
    && uri == host + (Decimal(port) + path)
  }

  lemma SpelledIsLoopback(uri: string, host: string, port: nat, path: string)
    requires |uri| <= 1024 && Spelled(uri, host, port, path)
    ensures LoopbackUri(uri)
  {
    UriPathIsText(path);
    PortAndPathSpelled(Decimal(port) + path);
    assert PortAllowed(port) && UriPath(path);
    AfterEitherHost(host, Decimal(port) + path);
  }

  lemma AfterEitherHost(host: string, rest: string)
    requires host in {"http://127.0.0.1:", "http://[::1]:"}
    ensures AfterHost(host + rest) == Some(rest)
  {
    assert (host + rest)[|host|..] == rest && (host + rest)[7] == host[7];
    assert "http://127.0.0.1:"[7] == '1' && "http://[::1]:"[7] == '[';
  }

  lemma LoopbackParts(uri: string) returns (host: string, port: nat, path: string)
    requires LoopbackUri(uri)
    ensures |uri| <= 1024 && Spelled(uri, host, port, path)
  {
    var rest := AfterHost(uri).value;
    PortAndPathSpelled(rest);
    host := HostSplits(uri);
    port, path :| PortAllowed(port) && UriPath(path) && rest == Decimal(port) + path;
    UriPathIsText(path);
  }

  lemma HostSplits(uri: string) returns (host: string)
    requires AfterHost(uri).Some?
    ensures host in {"http://127.0.0.1:", "http://[::1]:"} && uri == host + AfterHost(uri).value
  {
    host := if IPV4 <= uri then IPV4 else IPV6;
    assert uri == host + uri[|host|..];
  }

  /** Exactly the URIs that spell a loopback address, a port other than 80 and a path without dot segments. */
  lemma LoopbackIsSpelled(uri: string)
    ensures LoopbackUri(uri) <==>
            |uri| <= 1024 && exists host: string, port: nat, path: string :: Spelled(uri, host, port, path)
  {
    if LoopbackUri(uri) {
      var host, port, path := LoopbackParts(uri);
    }
    forall host: string, port: nat, path: string | |uri| <= 1024 && Spelled(uri, host, port, path)
      ensures LoopbackUri(uri)
    {
      SpelledIsLoopback(uri, host, port, path);
    }
  }

  /** Printable characters that JSON strings hold unescaped. */
  predicate Unescaped(s: string) {
    forall i | 0 <= i < |s| :: 0x20 <= s[i] as int < 0x80 && s[i] != '"' && s[i] != '\\'
  }

  lemma PortAndPathUnescaped(s: string)
    requires PortAndPath(s)
    ensures Unescaped(s)
  {
    var slash := Find(s, '/');
    assert forall i | 0 <= i < slash :: IsDigit(s[..slash][i]);
    assert forall i | 0 <= i < |s| - slash :: IsPathChar(s[slash..][i]);
    assert s == s[..slash] + s[slash..];
  }

  lemma LoopbackIsUnescaped(uri: string)
    requires LoopbackUri(uri)
    ensures Unescaped(uri)
  {
    PortAndPathUnescaped(AfterHost(uri).value);
    var host := if IPV4 <= uri then IPV4 else IPV6;
    assert uri == host + AfterHost(uri).value;
  }
}
