/** Input validation and text escaping: the name validators, the range
    check on numbers and `sanitize`. */
module Security {
  import opened Base

  // ---------------------------------------------------------------------
  // Validators
  // ---------------------------------------------------------------------

  /** A character of JavaScript's `\s` class: the white-space and line
      terminator characters of ECMAScript. */
  predicate IsJsSpace(c: char)
  {
    || c == '\t' || c == '\n' || c == '\U{b}' || c == '\U{c}' || c == '\r' || c == ' '
    || c == '\U{a0}' || c == '\U{1680}' || ('\U{2000}' <= c <= '\U{200a}')
    || c == '\U{2028}' || c == '\U{2029}' || c == '\U{202f}' || c == '\U{205f}'
    || c == '\U{3000}' || c == '\U{feff}'
  }

  predicate IsAsciiAlnum(c: char)
  {
    ('a' <= c <= 'z') || ('A' <= c <= 'Z') || ('0' <= c <= '9')
  }

  /** The class `[a-zA-Z0-9\s]` of manager names. */
  predicate ManagerChar(c: char)
  {
    IsAsciiAlnum(c) || IsJsSpace(c)
  }

  /** The class `[a-zA-Z0-9\s\-']` of team names. */
  predicate TeamChar(c: char)
  {
    ManagerChar(c) || c == '-' || c == '\''
  }

  /** A full match of `/^[C]+$/`: one character of the class, then either the end
      or another match. */
  function FullMatch(s: string, cls: char -> bool): (r: bool)
    ensures r <==> s != [] && forall i | 0 <= i < |s| :: cls(s[i])
    decreases |s|
  {
    |s| > 0 && cls(s[0]) && (|s| == 1 || FullMatch(s[1..], cls))
  }

  /** `validate.managerName(name)`.  Every character the pattern admits is
      a single UTF-16 unit, so `name.length` is `|name|` whenever the
      pattern matches. */
  function ManagerName(name: string): (r: bool)
    ensures r <==> name != [] && (forall i | 0 <= i < |name| :: ManagerChar(name[i])) && 2 <= |name| <= 30
  {
    FullMatch(name, ManagerChar) && |name| >= 2 && |name| <= 30
  }

  /** `validate.teamName(name)`. */
  function TeamName(name: string): (r: bool)
    ensures r <==> name != [] && (forall i | 0 <= i < |name| :: TeamChar(name[i])) && |name| <= 50
  {
    FullMatch(name, TeamChar) && |name| <= 50
  }

  /** Every valid manager name is a valid team name. */
  lemma ManagerNameIsTeamName(name: string)
    requires ManagerName(name)
    ensures TeamName(name)
  {
  }

  /** Neither validator accepts the empty string. */
  lemma EmptyNameRejected()
    ensures !ManagerName("") && !TeamName("")
  {
  }

  /** A name with a character outside the team class, `<` say, is
      rejected by both validators. */
  lemma MarkupRejected(name: string, i: nat)
    requires i < |name| && name[i] == '<'
    ensures !ManagerName(name) && !TeamName(name)
  {
  }

  /** `validate.number(value, min, max)` on an integer `value`; `None`
      stands for the default `max` of `Infinity`. */
  function ValidNumber(value: int, min: int, max: Option<int>): (r: bool)
    ensures r <==> min <= value && (max.None? || value <= max.value)
  {
    value >= min && (max.None? || value <= max.value)
  }

  /** With the defaults (`min = 0`, `max = Infinity`) exactly the
      non-negative integers pass. */
  lemma DefaultRange(value: int)
    ensures ValidNumber(value, 0, None) <==> value >= 0
  {
  }

  // ---------------------------------------------------------------------
  // sanitize
  // ---------------------------------------------------------------------

  /** How the HTML serializer writes one character of a text node. */
  function EscapeChar(c: char): (r: string)
  {
    if c == '&' then "&amp;"
    else if c == '<' then "&lt;"
    else if c == '>' then "&gt;"
    else if c == '\U{a0}' then "&nbsp;"
    else [c]
  }

  /** The serialization of a text node holding `s`, as `innerHTML` gives
      it (the escaping of section 13.3 of the HTML Living Standard, outside
      attributes). */
  function Escape(s: string): (r: string)
    ensures '<' !in r && '>' !in r && '\U{a0}' !in r
    ensures |r| >= |s|
  {
    if s == [] then [] else EscapeChar(s[0]) + Escape(s[1..])
  }

  /** `sanitize(html)`: `''` for the falsy empty string, otherwise the
      text escaped so that it can hold no markup. */
  function Sanitize(html: string): (r: string)
    ensures html == [] ==> r == []
    ensures '<' !in r && '>' !in r
  {
    if html == [] then [] else Escape(html)
  }

  function StartsWith(s: string, p: string): bool
  {
    |p| <= |s| && s[..|p|] == p
  }

  /** Reading the four character references back; `None` for an `&` that
      starts none of them. */
  function Unescape(s: string): Option<string>
    decreases |s|
  {
    if s == [] then Some([])
    else if s[0] != '&' then Prepend(s[0], Unescape(s[1..]))
    else if StartsWith(s, "&amp;") then Prepend('&', Unescape(s[5..]))
    else if StartsWith(s, "&lt;") then Prepend('<', Unescape(s[4..]))
    else if StartsWith(s, "&gt;") then Prepend('>', Unescape(s[4..]))
    else if StartsWith(s, "&nbsp;") then Prepend('\U{a0}', Unescape(s[6..]))
    else None
  }

  lemma UnescapeChar(c: char, rest: string)
    ensures Unescape(EscapeChar(c) + rest) == Prepend(c, Unescape(rest))
  {
    var t := EscapeChar(c) + rest;
    if c == '&' {
      assert t[..5] == "&amp;" && t[5..] == rest;
    } else if c == '<' {
      assert t[..4] == "&lt;" && t[4..] == rest;
      assert !StartsWith(t, "&amp;") by { assert t[1] == 'l'; }
    } else if c == '>' {
      assert t[..4] == "&gt;" && t[4..] == rest;
      assert !StartsWith(t, "&amp;") by { assert t[1] == 'g'; }
      assert !StartsWith(t, "&lt;") by { assert t[1] == 'g'; }
    } else if c == '\U{a0}' {
      assert t[..6] == "&nbsp;" && t[6..] == rest;
      assert !StartsWith(t, "&amp;") by { assert t[1] == 'n'; }
      assert !StartsWith(t, "&lt;") by { assert t[1] == 'n'; }
      assert !StartsWith(t, "&gt;") by { assert t[1] == 'n'; }
    } else {
      assert t[1..] == rest;
    }
  }

  /** Un-escaping the escaped text gives the text back. */
  lemma {:induction false} EscapeRoundTrip(s: string)
    ensures Unescape(Escape(s)) == Some(s)
  {
    if s != [] {
      EscapeRoundTrip(s[1..]);
      UnescapeChar(s[0], Escape(s[1..]));
      assert [s[0]] + s[1..] == s;
    }
  }

  /** What `sanitize` returns reads back as its argument. */
  lemma SanitizeRoundTrip(html: string)
    ensures Unescape(Sanitize(html)) == Some(html)
  {
    EscapeRoundTrip(html);
  }
}
