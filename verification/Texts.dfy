/** Plain facts about texts and hexadecimal digits that several modules need. */
module Texts {
  const HEX := "0123456789abcdef"

  /** The number of texts of `n` hexadecimal digits. */
  function Power16(n: nat): nat {
    if n == 0 then 1 else 16 * Power16(n - 1)
  }

  lemma Assoc(a: string, b: string, c: string)
    ensures a + b + c == a + (b + c)
  {
  }

  /** The parts of a text around a separator. */
  function SplitAt(s: string, separator: char): (parts: seq<string>)
    ensures parts != []
  {
    if s == "" then [""]
    else
      var more := SplitAt(s[1..], separator);
      if s[0] == separator then [""] + more else [[s[0]] + more[0]] + more[1..]
  }

  lemma {:induction false} SplitNothing(s: string, separator: char)
    requires separator !in s
    ensures SplitAt(s, separator) == [s]
  {
    if s != "" {
      SplitNothing(s[1..], separator);
      assert [s[0]] + s[1..] == s;
    }
  }

  lemma {:induction false} SplitFirst(s: string, separator: char, rest: string)
    requires separator !in s
    ensures SplitAt(s + [separator] + rest, separator) == [s] + SplitAt(rest, separator)
  {
    var text := s + [separator] + rest;
    if s == "" {
      assert text[1..] == rest;
    } else {
      SplitFirst(s[1..], separator, rest);
      assert text[1..] == s[1..] + [separator] + rest;
      assert [s[0]] + s[1..] == s;
    }
  }
}
