/** Escaping of string values, and the matchers that read them back from .config lines. */
module Strings {
  import opened Model

  // ----- escape(): two replace() passes -----

  /** str.replace() of one character by a string */
  function Replace(s: string, c: char, r: string): string {
    if s == [] then [] else (if s[0] == c then r else [s[0]]) + Replace(s[1..], c, r)
  }

  function Escape(s: string): string { Replace(Replace(s, '\\', "\\\\"), '"', "\\\"") }

  function EscapeChar(c: char): string { if c == '\\' || c == '"' then ['\\', c] else [c] }

  /** The same as a map over the characters. */
  function EscapeMap(s: string): string { if s == [] then [] else EscapeChar(s[0]) + EscapeMap(s[1..]) }

  lemma {:induction false} ReplaceConcat(a: string, b: string, c: char, r: string)
    ensures Replace(a + b, c, r) == Replace(a, c, r) + Replace(b, c, r)
  {
    if a == [] {
      assert a + b == b;
    } else {
      assert (a + b)[1..] == a[1..] + b;
      ReplaceConcat(a[1..], b, c, r);
    }
  }

  /** The two passes do not interfere: each character is escaped on its own. */
  lemma {:induction false} EscapeIsMap(s: string)
    ensures Escape(s) == EscapeMap(s)
  {
    if s != [] {
      var first := if s[0] == '\\' then "\\\\" else [s[0]];
      ReplaceConcat(first, Replace(s[1..], '\\', "\\\\"), '"', "\\\"");
      EscapeIsMap(s[1..]);
      assert first == [first[0]] + first[1..];
      assert Replace(first, '"', "\\\"") == EscapeChar(s[0]) by {
        if s[0] == '\\' {
          assert first[1..] == "\\" && first[1..][1..] == [];
        } else {
          assert first[1..] == [];
        }
      }
    }
  }

  // ----- unescape(): \x becomes x, except at a line break -----

  function Unescape(s: string): string {
    if |s| < 2 then s
    else if s[0] == '\\' && s[1] != '\n' then [s[1]] + Unescape(s[2..])
    else [s[0]] + Unescape(s[1..])
  }

  lemma {:induction false} UnescapeEscape(s: string)
    ensures Unescape(EscapeMap(s)) == s
  {
    if s != [] {
      var rest := EscapeMap(s[1..]);
      UnescapeEscape(s[1..]);
      var e := EscapeMap(s);
      if s[0] == '\\' || s[0] == '"' {
        assert e[0] == '\\' && e[1] == s[0] && e[2..] == rest;
      } else {
        assert e[0] == s[0] && e[1..] == rest;
        if rest == [] { assert s[1..] == []; }
      }
    }
  }

  // ----- The .config string literal matcher -----

  /** What the body of the literal can be, up to the closing quote: characters other than
      backslash and quote, and backslash followed by any character but a line break. */
  function LiteralBody(s: string): Option<string> {
    if s == [] then None
    else if s[0] == '"' then Some([])
    else if s[0] == '\\' then
      if |s| >= 2 && s[1] != '\n' then
        match LiteralBody(s[2..]) case Some(b) => Some(s[..2] + b) case None => None
      else None
    else match LiteralBody(s[1..]) case Some(b) => Some([s[0]] + b) case None => None
  }

  /** _conf_string_match() */
  function ConfString(s: string): Option<string> {
    if s != [] && s[0] == '"' then LiteralBody(s[1..]) else None
  }

  function Quoted(s: string): string { "\"" + Escape(s) + "\"" }

  lemma {:induction false} BodyOfEscaped(s: string, rest: string)
    ensures LiteralBody(EscapeMap(s) + "\"" + rest) == Some(EscapeMap(s))
  {
    var t := EscapeMap(s) + "\"" + rest;
    if s == [] {
      assert t[0] == '"';
    } else {
      BodyOfEscaped(s[1..], rest);
      var tail := EscapeMap(s[1..]) + "\"" + rest;
      if s[0] == '\\' || s[0] == '"' {
        assert t[..2] == EscapeChar(s[0]) && t[2..] == tail;
      } else {
        assert t[..1] == EscapeChar(s[0]) && t[1..] == tail;
      }
    }
  }

  /** String values survive the trip through a .config line. */
  lemma ConfStringRoundTrip(s: string)
    ensures ConfString(Quoted(s)) == Some(Escape(s)) && Unescape(Escape(s)) == s
  {
    EscapeIsMap(s);
    UnescapeEscape(s);
    BodyOfEscaped(s, []);
    assert Quoted(s)[1..] == EscapeMap(s) + "\"" + [];
  }

  // ----- Other parts of a .config line -----

  predicate WordChar(c: char) { 'A' <= c <= 'Z' || 'a' <= c <= 'z' || '0' <= c <= '9' || c == '_' }

  /** _conf_key_match(): the longest prefix of letters, digits and underscores */
  function ConfKey(s: string): string {
    if s != [] && WordChar(s[0]) then [s[0]] + ConfKey(s[1..]) else []
  }

  predicate IsWord(s: string) { forall c <- s :: WordChar(c) }

  lemma {:induction false} KeyRoundTrip(s: string)
    requires IsWord(s)
    ensures ConfKey(s) == s && Unescape(s) == s
  {
    if s != [] {
      assert s[0] in s;
      KeyRoundTrip(s[1..]);
    }
  }

  predicate Blank(c: char) { c in " \t\n\r" || (c as int) in {11, 12, 28, 29, 30, 31} }

  /** str.rstrip() */
  function RStrip(s: string): string { if s != [] && Blank(s[|s| - 1]) then RStrip(s[..|s| - 1]) else s }
}
