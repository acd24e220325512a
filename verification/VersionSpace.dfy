/** White space after a version: the documentation says it is ignored, the code stops at newlines. */
module VersionSpace {
  import opened Common
  import opened Versions
  import opened VersionText

  predicate AllSpace(s: string) {
    forall c <- s :: IsSpace(c)
  }

  lemma {:induction false} SkipAppend(s: string, ws: string)
    requires AllSpace(ws)
    ensures SkipSpaces(s) == "" <==> SkipSpaces(s + ws) == ""
    ensures SkipSpaces(s) != "" ==> SkipSpaces(s + ws) == SkipSpaces(s) + ws
    decreases |s|
  {
    if s == "" {
      assert s + ws == ws;
      SkipAll(ws);
    } else {
      assert (s + ws)[1..] == s[1..] + ws;
      SkipAppend(s[1..], ws);
    }
  }

  lemma {:induction false} SkipAll(ws: string)
    requires AllSpace(ws)
    ensures SkipSpaces(ws) == ""
    decreases |ws|
  {
    if ws != "" {
      assert ws[0] in ws;
      SkipAll(ws[1..]);
    }
  }

  lemma {:induction false} SpanAppend(s: string, t: string, p: char -> bool)
    requires t == "" || !p(t[0])
    ensures Span(s + t, p) == Span(s, p)
    decreases |s|
  {
    if s == "" {
      assert s + t == t;
    } else {
      assert (s + t)[1..] == s[1..] + t;
      SpanAppend(s[1..], t, p);
    }
  }

  /** Text that neither continues nor opens a field does not change the longest front. */
  lemma {:induction false} DottedAppend(s: string, t: string, p: char -> bool)
    requires t == "" || (t[0] != '.' && !p(t[0]))
    ensures Dotted(s + t, p) == Dotted(s, p)
    decreases |s|
  {
    SpanAppend(s, t, p);
    var n := Span(s, p);
    hide Span;
    if n > 0 && n < |s| {
      assert (s + t)[n] == s[n];
      if n + 1 < |s| {
        assert (s + t)[n + 1..] == s[n + 1..] + t;
        DottedAppend(s[n + 1..], t, p);
      } else if t != "" {
        assert (s + t)[n + 1] == t[0];
      }
    } else if n > 0 && t != "" {
      assert (s + t)[n] == t[0];
    }
  }

  lemma SpaceOpensNothing(ws: string)
    requires AllSpace(ws)
    ensures ws == "" || (ws[0] != '.' && ws[0] != '-' && ws[0] != '+' && !IsDigit(ws[0]) && !IsIdentifierChar(ws[0]))
  {
    if ws != "" { assert ws[0] in ws; }
  }

  lemma PartAppend(s: string, mark: char, ws: string)
    requires AllSpace(ws) && (mark == '-' || mark == '+')
    ensures MatchPart(s + ws, mark) == (MatchPart(s, mark).0, MatchPart(s, mark).1 + ws)
  {
    SpaceOpensNothing(ws);
    hide Dotted, IsIdentifierChar;
    if s == "" {
      assert s + ws == ws;
    } else {
      assert (s + ws)[1..] == s[1..] + ws;
      DottedAppend(s[1..], ws, IsIdentifierChar);
      var n := Dotted(s[1..], IsIdentifierChar);
      assert (s[1..] + ws)[..n] == s[1..][..n] && (s[1..] + ws)[n..] == s[1..][n..] + ws;
    }
  }

  lemma ExtraAppend(extra: string, ws: string)
    requires AllSpace(ws)
    ensures MatchExtra(extra + ws) == MatchExtra(extra)
  {
    hide MatchPart, SkipSpaces;
    PartAppend(extra, '-', ws);
    var rest := MatchPart(extra, '-').1;
    PartAppend(rest, '+', ws);
    SkipAppend(MatchPart(rest, '+').1, ws);
  }

  /** The text from the first number on. */
  function Unprefixed(s: string): string {
    var t := SkipSpaces(s);
    if t != "" && t[0] == 'v' then t[1..] else t
  }

  lemma {:induction false} SkipLonger(s: string, rest: string)
    requires SkipSpaces(s) != ""
    ensures SkipSpaces(s + rest) == SkipSpaces(s) + rest
    decreases |s|
  {
    assert (s + rest)[0] == s[0];
    if IsSpace(s[0]) {
      assert (s + rest)[1..] == s[1..] + rest;
      SkipLonger(s[1..], rest);
    }
  }

  lemma UnprefixedAppend(str: string, rest: string)
    requires SkipSpaces(str) != ""
    ensures Unprefixed(str + rest) == Unprefixed(str) + rest
  {
    SkipLonger(str, rest);
    hide SkipSpaces;
    var t := SkipSpaces(str);
    assert (t + rest)[0] == t[0] && (t + rest)[1..] == t[1..] + rest;
  }

  /** What comes after a version and does not continue its numbers is not looked at, but for newlines. */
  lemma VersionAppend(str: string, rest: string)
    requires MatchVersion(str).Some? && (rest == "" || (rest[0] != '.' && !IsDigit(rest[0])))
    ensures '\n' in rest ==> MatchVersion(str + rest) == None
    ensures '\n' !in rest ==>
              MatchVersion(str + rest) == Some((MatchVersion(str).value.0, MatchVersion(str).value.1 + rest))
  {
    NoDigits();
    hide Dotted, SkipSpaces, IsSpace, IsDigit;
    var u := Unprefixed(str);
    assert SkipSpaces(str) != "";
    UnprefixedAppend(str, rest);
    DottedAppend(u, rest, IsDigit);
    CutBefore(u, rest, Dotted(u, IsDigit));
  }

  lemma CutBefore(u: string, ws: string, n: nat)
    requires n <= |u|
    ensures (u + ws)[..n] == u[..n] && (u + ws)[n..] == u[n..] + ws
  {
  }

  lemma NoDigits()
    ensures Dotted("", IsDigit) == 0
  {
  }

  lemma EmptyExtra()
    ensures MatchExtra("") == Some(("", ""))
  {
  }

  /** White space after a version is ignored exactly as long as no newline is in it. */
  lemma TrailingSpaceIff(str: string, ws: string, semver: bool)
    requires Parse(str, semver).Ok? && AllSpace(ws)
    ensures Parse(str + ws, semver) == Parse(str, semver) <==> '\n' !in ws
  {
    SpaceOpensNothing(ws);
    VersionAppend(str, ws);
    hide MatchVersion, MatchExtra, ParseComponents, Split;
    if '\n' !in ws {
      var extra := MatchVersion(str).value.1;
      ExtraAppend(extra, ws);
      if extra == "" {
        EmptyExtra();
        EmptyFields();
      } else {
        assert extra + ws != "";
      }
    }
  }

  /** A version with a newline after it is no version. */
  lemma NewlineFails()
    ensures Parse("1.2.3", true) == Ok(Version([1, 2, 3], true, "", ""))
    ensures Parse("1.2.3\n", true) == Err(NoVersion)
  {
    var v := Version([1, 2, 3], true, "", "");
    assert Print(v) == "1.2.3" by {
      assert Decimal(1) == "1" && Decimal(2) == "2" && Decimal(3) == "3";
      assert v.components[..2] == [1, 2] && [1, 2][..1] == [1];
    }
    PrintParses(v);
    VersionAppend("1.2.3", "\n");
    assert "1.2.3" + "\n" == "1.2.3\n";
  }

  // ----- What else the documentation lets through -------------------------------------------------------

  lemma {:induction false} SkipLeading(ws: string, s: string)
    requires AllSpace(ws)
    ensures SkipSpaces(ws + s) == SkipSpaces(s)
    decreases |ws|
  {
    if ws == "" {
      assert ws + s == s;
    } else {
      assert ws[0] in ws && (ws + s)[1..] == ws[1..] + s;
      SkipLeading(ws[1..], s);
    }
  }

  lemma NumberFirst(s: string)
    ensures Dotted(s, IsDigit) > 0 <==> s != "" && IsDigit(s[0])
  {
  }

  /**
   White space in front of a version is ignored, newlines included; a letter v then may come directly before
   the first digit, and before nothing else.
   */
  lemma LeadingIgnoredIff(ws: string, s: string, semver: bool)
    requires AllSpace(ws)
    ensures Parse(ws + s, semver) == Parse(s, semver)
    ensures Parse(ws + "v" + s, semver) == if s != "" && IsDigit(s[0]) then Parse(s, semver) else Err(NoVersion)
  {
    SkipLeading(ws, s);
    assert ws + "v" + s == ws + ("v" + s);
    SkipLeading(ws, "v" + s);
    hide Parse, Dotted;
    VThenNumber(s);
    SameMatch(ws + s, s, semver);
    if s != "" && IsDigit(s[0]) { SameMatch(ws + "v" + s, s, semver); } else { NoMatch(ws + "v" + s, semver); }
  }

  lemma SameMatch(a: string, b: string, semver: bool)
    requires MatchVersion(a) == MatchVersion(b)
    ensures Parse(a, semver) == Parse(b, semver)
  {
    hide MatchVersion, MatchExtra, ParseComponents, Split;
  }

  lemma NoMatch(s: string, semver: bool)
    requires MatchVersion(s) == None
    ensures Parse(s, semver) == Err(NoVersion)
  {
  }

  lemma VThenNumber(s: string)
    ensures MatchVersion("v" + s) == if s != "" && IsDigit(s[0]) then MatchVersion(s) else None
  {
    NumberFirst(s);
    assert ("v" + s)[1..] == s && SkipSpaces("v" + s) == "v" + s;
  }

  /** Whatever else follows a generic version on its line is ignored, unless it goes on with its numbers. */
  lemma GenericIgnoresRest(str: string, rest: string)
    requires Parse(str, false).Ok? && '\n' !in rest
    requires rest == "" || (rest[0] != '.' && !IsDigit(rest[0]))
    ensures Parse(str + rest, false) == Parse(str, false)
  {
    VersionAppend(str, rest);
    hide MatchVersion, MatchExtra, ParseComponents, Split;
  }
}
