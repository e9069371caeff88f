/**
 * The part of JSON string syntax that the serialised `Authorization` record uses:
 * a string literal's body, in which `"` and `\` are written with a backslash
 * before them, ends at the first unescaped `"`.
 */
module Json {
  import opened Wrappers

  predicate NeedsEscape(c: char) {
    c == '"' || c == '\\'
  }

  /** The body of a JSON string literal for `s`, without the quotes. */
  function Escape(s: string): string {
    if s == [] then []
    else (if NeedsEscape(s[0]) then ['\\', s[0]] else [s[0]]) + Escape(s[1..])
  }

  /**
   * Reads the body of a string literal from the front of `s`, up to and including
   * its closing quote; gives the unescaped text and what follows the quote.
   */
  function Unquote(s: string): Option<(string, string)>
    decreases |s|
  {
    if s == [] then None
    else if s[0] == '"' then Some(([], s[1..]))
    else if s[0] == '\\' then
      if |s| >= 2 && NeedsEscape(s[1]) then
        match Unquote(s[2..])
        case None => None
        case Some((text, rest)) => Some(([s[1]] + text, rest))
      else None
    else
      match Unquote(s[1..])
      case None => None
      case Some((text, rest)) => Some(([s[0]] + text, rest))
  }

  /** Reading back an escaped body, closed by a quote, gives the text and the rest untouched. */
  lemma {:induction false} UnquoteEscape(s: string, rest: string)
    ensures Unquote(Escape(s) + "\"" + rest) == Some((s, rest))
  {
    if s == [] {
      assert Escape(s) + "\"" + rest == ['"'] + rest;
    } else {
      var head := if NeedsEscape(s[0]) then ['\\', s[0]] else [s[0]];
      var tail := Escape(s[1..]) + "\"" + rest;
      assert Escape(s) + "\"" + rest == head + tail;
      UnquoteEscape(s[1..], rest);
      if NeedsEscape(s[0]) {
        assert (head + tail)[2..] == tail;
      } else {
        assert (head + tail)[1..] == tail;
      }
      assert [s[0]] + s[1..] == s;
    }
  }

  /** Whatever Unquote accepts is exactly an escaped body, a quote and the rest. */
  lemma {:induction false} UnquoteCanonical(s: string)
    requires Unquote(s).Some?
    ensures s == Escape(Unquote(s).value.0) + "\"" + Unquote(s).value.1
    decreases |s|
  {
    if s[0] == '"' {
      assert s == [] + "\"" + s[1..];
    } else if s[0] == '\\' {
      UnquoteCanonical(s[2..]);
      var (text, rest) := Unquote(s[2..]).value;
      assert Unquote(s).value.0 == [s[1]] + text;
      assert ([s[1]] + text)[1..] == text;
      assert s == ['\\', s[1]] + s[2..];
    } else {
      UnquoteCanonical(s[1..]);
      var (text, rest) := Unquote(s[1..]).value;
      assert Unquote(s).value.0 == [s[0]] + text;
      assert ([s[0]] + text)[1..] == text;
      assert s == [s[0]] + s[1..];
    }
  }
}
