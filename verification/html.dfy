/**
 * `html.EscapeString`: the five characters that HTML gives meaning to become
 * character references, and `Unescape` reads exactly those five back.
 */
module Html {

  /** The replacement for one character; characters without meaning stay as they are. */
  function EscapeChar(c: char): string {
    if c == '<' then "&lt;"
    else if c == '>' then "&gt;"
    else if c == '&' then "&amp;"
    else if c == '\'' then "&#39;"
    else if c == '"' then "&#34;"
    else [c]
  }

  /** `html.EscapeString`: every character replaced by its `EscapeChar`, left to right. */
  function EscapeString(s: string): (r: string)
    ensures '<' !in r && '>' !in r && '\'' !in r && '"' !in r
    ensures |r| >= |s|
    decreases |s|
  {
    if s == [] then [] else EscapeChar(s[0]) + EscapeString(s[1..])
  }

  /** Replaces the five references `EscapeString` writes by the characters they stand for. */
  function Unescape(s: string): string
    decreases |s|
  {
    if s == [] then []
    else if |s| >= 4 && s[..4] == "&lt;" then "<" + Unescape(s[4..])
    else if |s| >= 4 && s[..4] == "&gt;" then ">" + Unescape(s[4..])
    else if |s| >= 5 && s[..5] == "&amp;" then "&" + Unescape(s[5..])
    else if |s| >= 5 && s[..5] == "&#39;" then "'" + Unescape(s[5..])
    else if |s| >= 5 && s[..5] == "&#34;" then "\"" + Unescape(s[5..])
    else [s[0]] + Unescape(s[1..])
  }

  lemma UnescapeChar(c: char, rest: string)
    ensures Unescape(EscapeChar(c) + rest) == [c] + Unescape(rest)
  {
    var s := EscapeChar(c) + rest;
    if c == '<' || c == '>' {
      assert s[..4] == EscapeChar(c) && s[4..] == rest;
    } else if c == '&' || c == '\'' || c == '"' {
      assert s[..5] == EscapeChar(c) && s[5..] == rest;
      assert s[..4][1] == EscapeChar(c)[1] && s[..4][3] == EscapeChar(c)[3];
    } else {
      assert s[0] == c && s[1..] == rest;
    }
  }

  /** Escaping loses nothing: unescaping gives the original text back. */
  lemma {:induction false} EscapeRoundTrip(s: string)
    ensures Unescape(EscapeString(s)) == s
    decreases |s|
  {
    if s != [] {
      EscapeRoundTrip(s[1..]);
      UnescapeChar(s[0], EscapeString(s[1..]));
    }
  }

  /** Text without any of the five characters is left as it is. */
  lemma {:induction false} EscapeKeepsPlainText(s: string)
    requires forall i :: 0 <= i < |s| ==> s[i] !in "<>&'\""
    ensures EscapeString(s) == s
    decreases |s|
  {
    if s != [] {
      EscapeKeepsPlainText(s[1..]);
    }
  }
}
