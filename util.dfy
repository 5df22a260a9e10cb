/** String and path helpers: name shortening, CSV escaping and the one-edge summary of a path. */
module Util {
  import opened Wrappers
  import Strs
  import opened IR

  /**
   * `GetFuncSimpleName` and `GetSiteSimpleName` (the same code): remove every
   * non-overlapping occurrence of `prefix`, scanning left to right.
   */
  function SimpleName(name: string, prefix: string): (r: string)
    ensures |r| <= |name|
    ensures prefix == "" || !Strs.Contains(name, prefix) ==> r == name
  {
    Strs.RemoveAllShrinks(name, prefix);
    if prefix == "" then
      Strs.InsertNothing(name);
      Strs.ReplaceAll(name, prefix, "")
    else if !Strs.Contains(name, prefix) then
      Strs.ReplaceAbsent(name, prefix, "");
      Strs.ReplaceAll(name, prefix, "")
    else
      Strs.ReplaceAll(name, prefix, "")
  }

  /** `Escape`: double every backslash, then put a backslash before every double quote. */
  function Escape(s: string): string {
    Strs.ReplaceAll(Strs.ReplaceAll(s, "\\", "\\\\"), "\"", "\\\"")
  }

  /** How `Escape` treats one character. */
  function EscapeChar(c: char): string {
    if c == '\\' then "\\\\" else if c == '"' then "\\\"" else [c]
  }

  /** Escaping character by character: the reference definition of `Escape`. */
  function EscapeChars(s: string): string {
    if s == [] then [] else EscapeChar(s[0]) + EscapeChars(s[1..])
  }

  /** The reading of an escaped string: a backslash takes the next character literally. */
  function Unescape(s: string): string
    decreases |s|
  {
    if s == [] then []
    else if s[0] == '\\' && |s| >= 2 then [s[1]] + Unescape(s[2..])
    else [s[0]] + Unescape(s[1..])
  }

  lemma {:induction false} QuoteAfterBackslash(s: string)
    ensures Strs.MapChar(Strs.MapChar(s, '\\', "\\\\"), '"', "\\\"") == EscapeChars(s)
  {
    if s != [] {
      var head := if s[0] == '\\' then "\\\\" else [s[0]];
      assert Strs.MapChar(s, '\\', "\\\\") == head + Strs.MapChar(s[1..], '\\', "\\\\");
      Strs.MapCharAppend(head, Strs.MapChar(s[1..], '\\', "\\\\"), '"', "\\\"");
      assert Strs.MapChar(head, '"', "\\\"") == EscapeChar(s[0]) by {
        if s[0] == '\\' {
          assert head == ['\\'] + ['\\'];
          Strs.MapCharAppend(['\\'], ['\\'], '"', "\\\"");
        }
      }
      QuoteAfterBackslash(s[1..]);
    }
  }

  /** The two `ReplaceAll` passes of `Escape` are the character-by-character escape. */
  lemma EscapeIsPerChar(s: string)
    ensures Escape(s) == EscapeChars(s)
  {
    Strs.ReplaceCharIsMap(s, '\\', "\\\\");
    Strs.ReplaceCharIsMap(Strs.MapChar(s, '\\', "\\\\"), '"', "\\\"");
    assert "\\" == ['\\'] && "\"" == ['"'];
    QuoteAfterBackslash(s);
  }

  lemma {:induction false} UnescapeEscapeChars(s: string)
    ensures Unescape(EscapeChars(s)) == s
  {
    if s != [] {
      var t := EscapeChars(s[1..]);
      UnescapeEscapeChars(s[1..]);
      if s[0] == '\\' || s[0] == '"' {
        var u := EscapeChars(s);
        assert u == ['\\', s[0]] + t;
        assert u[2..] == t;
      } else {
        var u := EscapeChars(s);
        assert u == [s[0]] + t;
        assert u[1..] == t;
      }
    }
  }

  /** Reading back an escaped string gives the original: `Escape` loses nothing. */
  lemma EscapeRoundTrip(s: string)
    ensures Unescape(Escape(s)) == s
  {
    EscapeIsPerChar(s);
    UnescapeEscapeChars(s);
  }

  lemma {:induction false} EscapeCharsLength(s: string)
    ensures |EscapeChars(s)| == |s| + Strs.Count('\\', s) + Strs.Count('"', s)
  {
    if s != [] {
      EscapeCharsLength(s[1..]);
    }
  }

  /** `Escape` adds one character per backslash and one per double quote. */
  lemma EscapeLength(s: string)
    ensures |Escape(s)| == |s| + Strs.Count('\\', s) + Strs.Count('"', s)
  {
    EscapeIsPerChar(s);
    EscapeCharsLength(s);
  }

  lemma {:induction false} EscapeCharsPlain(s: string)
    requires forall i | 0 <= i < |s| :: s[i] != '\\' && s[i] != '"'
    ensures EscapeChars(s) == s
  {
    if s != [] {
      EscapeCharsPlain(s[1..]);
    }
  }

  /** A string without backslashes and double quotes escapes to itself. */
  lemma EscapePlain(s: string)
    requires forall i | 0 <= i < |s| :: s[i] != '\\' && s[i] != '"'
    ensures Escape(s) == s
  {
    EscapeIsPerChar(s);
    EscapeCharsPlain(s);
  }

  /** Consecutive edges of a path chain: each one starts where the previous one ends. */
  predicate Chained(path: seq<Edge>) {
    forall i | 0 <= i < |path| - 1 :: path[i].callee == path[i + 1].caller
  }

  /**
   * `GetSimpleEdgeForPath`: nothing for an empty path, the edge itself for a
   * one-edge path, otherwise a new edge from the first caller to the last callee
   * whose site is named `<first site>->...-><last site>` (and has no Addr).
   */
  function GetSimpleEdgeForPath(path: seq<Edge>): (r: Option<Edge>)
    ensures r.None? <==> path == []
    ensures |path| == 1 ==> r == Some(path[0])
    ensures r.Some? ==> r.value.caller == path[0].caller && r.value.callee == path[|path| - 1].callee
    ensures |path| >= 2 ==>
              r.value.site == Site(path[0].site.name + "->...->" + path[|path| - 1].site.name, "")
  {
    if |path| == 0 then None
    else if |path| == 1 then Some(path[0])
    else
      var site := path[0].site.name + "->...->" + path[|path| - 1].site.name;
      Some(Edge(path[0].caller, Site(site, ""), path[|path| - 1].callee))
  }
}
