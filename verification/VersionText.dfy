/** Parsing and printing versions (pkg/util/version): the two regular expressions as recognisers. */
module VersionText {
  import opened Common
  import opened Versions

  // ----- Recognisers ------------------------------------------------------------------------------------------

  predicate IsSpace(c: char) {
    c == ' ' || c == '\t' || c == '\n' || c == '\r' || c == '\U{000C}'
  }

  predicate IsIdentifierChar(c: char) {
    IsDigit(c) || IsLetter(c) || c == '-'
  }

  function SkipSpaces(s: string): string {
    if s != "" && IsSpace(s[0]) then SkipSpaces(s[1..]) else s
  }

  /** How many characters at the front satisfy p. */
  function Span(s: string, p: char -> bool): (n: nat)
    ensures n <= |s|
  {
    if s != "" && p(s[0]) then 1 + Span(s[1..], p) else 0
  }

  /** The longest front of the form x(.x)*, where x is one or more characters that satisfy p; 0 if there is none. */
  function Dotted(s: string, p: char -> bool): (n: nat)
    ensures n <= |s|
    decreases |s|
  {
    var n := Span(s, p);
    if n == 0 then 0
    else if n + 1 < |s| && s[n] == '.' && p(s[n + 1]) then n + 1 + Dotted(s[n + 1..], p)
    else n
  }

  /** versionMatchRE: optional space, an optional v, numbers, and the rest of the line. */
  function MatchVersion(s: string): Option<(string, string)> {
    var t := SkipSpaces(s);
    var u := if t != "" && t[0] == 'v' then t[1..] else t;
    var n := Dotted(u, IsDigit);
    if n == 0 || '\n' in u[n..] then None else Some((u[..n], u[n..]))
  }

  /** A part introduced by a mark: its text and what follows; the text is empty if there is no such part. */
  function MatchPart(s: string, mark: char): (string, string) {
    if s != "" && s[0] == mark && Dotted(s[1..], IsIdentifierChar) > 0 then
      var n := Dotted(s[1..], IsIdentifierChar);
      (s[1..][..n], s[1..][n..])
    else ("", s)
  }

  /** extraMatchRE: pre-release, build metadata, space. */
  function MatchExtra(s: string): Option<(string, string)> {
    var (pre, afterPre) := MatchPart(s, '-');
    var (build, afterBuild) := MatchPart(afterPre, '+');
    if SkipSpaces(afterBuild) == "" then Some((pre, build)) else None
  }

  // ----- Parsing --------------------------------------------------------------------------------------------------

  datatype ParseError = NoVersion | WrongNumberOfComponents | ZeroPrefixed | NotANumber | BadExtra

  predicate HasZeroPrefix(s: string) {
    s != "" && s[0] == '0' && s != "0"
  }

  /** Components i.. of the list. */
  function ParseComponents(parts: seq<string>, semver: bool, i: nat): Result<seq<nat>, ParseError>
    requires i <= |parts|
    decreases |parts| - i
  {
    if i == |parts| then Ok([])
    else if (i == 0 || semver) && HasZeroPrefix(parts[i]) then Err(ZeroPrefixed)
    else
      match ParseUint(parts[i])
      case None => Err(NotANumber)
      case Some(n) =>
        match ParseComponents(parts, semver, i + 1)
        case Err(e) => Err(e)
        case Ok(rest) => Ok([n] + rest)
  }

  /** No field that counts as a number starts with a superfluous zero. */
  predicate GoodFields(fields: seq<string>) {
    forall f <- fields :: ParseUint(f).Some? ==> !HasZeroPrefix(f)
  }

  function Parse(str: string, semver: bool): Result<Version, ParseError> {
    match MatchVersion(str)
    case None => Err(NoVersion)
    case Some((numbers, extra)) =>
      var parts := Split(numbers, '.');
      if (semver && |parts| != 3) || (!semver && |parts| < 2) then Err(WrongNumberOfComponents)
      else
        match ParseComponents(parts, semver, 0)
        case Err(e) => Err(e)
        case Ok(components) =>
          if !semver || extra == "" then Ok(Version(components, semver, "", ""))
          else
            match MatchExtra(extra)
            case None => Err(BadExtra)
            case Some((pre, build)) =>
              if GoodFields(Split(pre, '.')) then Ok(Version(components, semver, pre, build)) else Err(ZeroPrefixed)
  }

  method ParseVersion(str: string, semver: bool) returns (r: Result<Version, ParseError>)
    ensures r == Parse(str, semver)
  {
    hide MatchVersion, MatchExtra, Split, ParseUint, HasZeroPrefix;
    var m := MatchVersion(str);
    if m.None? { return Err(NoVersion); }
    var (numbers, extra) := m.value;
    var parts := Split(numbers, '.');
    if (semver && |parts| != 3) || (!semver && |parts| < 2) { return Err(WrongNumberOfComponents); }
    var components := [];
    ghost var all := ParseComponents(parts, semver, 0);
    for i := 0 to |parts|
      invariant var rest := ParseComponents(parts, semver, i);
                if rest.Err? then all == rest else all.Ok? && all.value == components + rest.value
    {
      if (i == 0 || semver) && HasZeroPrefix(parts[i]) { return Err(ZeroPrefixed); }
      var num := ParseUint(parts[i]);
      if num.None? { return Err(NotANumber); }
      components := components + [num.value];
    }
    assert all.value == components;
    if semver && extra != "" {
      var e := MatchExtra(extra);
      if e.None? { return Err(BadExtra); }
      var (pre, build) := e.value;
      var fields := Split(pre, '.');
      for i := 0 to |fields|
        invariant forall f <- fields[..i] :: ParseUint(f).Some? ==> !HasZeroPrefix(f)
      {
        var num := ParseUint(fields[i]);
        if num.Some? && HasZeroPrefix(fields[i]) {
          assert fields[i] in fields;
          return Err(ZeroPrefixed);
        }
      }
      assert fields[..|fields|] == fields;
      return Ok(Version(components, semver, pre, build));
    }
    return Ok(Version(components, semver, "", ""));
  }

  // ----- Printing -------------------------------------------------------------------------------------------------

  function Digit(d: nat): char
    requires d < 10
  {
    '0' + d as char
  }

  /** fmt's %d. */
  function Decimal(n: nat): string {
    if n < 10 then [Digit(n)] else Decimal(n / 10) + [Digit(n % 10)]
  }

  function Dots(components: seq<nat>): string {
    if components == [] then ""
    else if |components| == 1 then Decimal(components[0])
    else Dots(components[..|components| - 1]) + "." + Decimal(components[|components| - 1])
  }

  function Extra(v: Version): string {
    (if v.preRelease != "" then "-" + v.preRelease else "") +
    (if v.buildMetadata != "" then "+" + v.buildMetadata else "")
  }

  function Print(v: Version): string {
    Dots(v.components) + Extra(v)
  }

  method String(v: Version) returns (s: string)
    ensures s == Print(v)
  {
    s := "";
    for i := 0 to |v.components|
      invariant s == Dots(v.components[..i])
    {
      assert v.components[..i + 1][..i] == v.components[..i];
      if i > 0 {
        s := s + ".";
      }
      s := s + Decimal(v.components[i]);
    }
    assert v.components[..|v.components|] == v.components;
    if v.preRelease != "" {
      s := s + "-";
      s := s + v.preRelease;
    }
    if v.buildMetadata != "" {
      s := s + "+";
      s := s + v.buildMetadata;
    }
  }

  // ----- Numbers and their digits -----------------------------------------------------------------------------------

  lemma {:induction false} DecimalValue(n: nat)
    ensures AllDigits(Decimal(n)) && Value(Decimal(n)) == n
    ensures Decimal(n)[0] == '0' <==> n == 0
    ensures n == 0 ==> Decimal(n) == "0"
    decreases n
  {
    if n < 10 {
      assert [Digit(n)][..0] == "";
    } else {
      DecimalValue(n / 10);
      var s := Decimal(n);
      assert s[..|s| - 1] == Decimal(n / 10);
    }
  }

  lemma DecimalParses(n: nat)
    requires n < UINT_LIMIT
    ensures ParseUint(Decimal(n)) == Some(n) && !HasZeroPrefix(Decimal(n))
  {
    DecimalValue(n);
  }

  lemma {:induction false} SpanOf(s: string, t: string, p: char -> bool)
    requires forall c <- s :: p(c)
    requires t == "" || !p(t[0])
    ensures Span(s + t, p) == |s|
    decreases |s|
  {
    if s == "" {
      assert s + t == t;
    } else {
      assert (s + t)[1..] == s[1..] + t;
      SpanOf(s[1..], t, p);
    }
  }

  /** A dotted text is recognised up to its end when something else follows. */
  lemma DottedStep(s: string, t: string, p: char -> bool)
    requires s != "" && (forall c <- s :: p(c)) && !p('.')
    requires t == "" || (t[0] != '.' && !p(t[0])) || (t[0] == '.' && |t| > 1 && p(t[1]))
    ensures Dotted(s + t, p) == |s| + if t != "" && t[0] == '.' then 1 + Dotted(t[1..], p) else 0
  {
    SpanOf(s, t, p);
    if t != "" && t[0] == '.' {
      assert (s + t)[|s| + 1..] == t[1..];
    }
  }

  // ----- Splitting ---------------------------------------------------------------------------------------------------

  lemma {:induction false} SplitOne(s: string)
    requires '.' !in s
    ensures Split(s, '.') == [s]
    decreases |s|
  {
    if s != "" {
      SplitOne(s[1..]);
      assert [s[0]] + s[1..] == s;
    }
  }

  lemma {:induction false} SplitAppend(s: string, t: string)
    requires '.' !in t
    ensures Split(s + "." + t, '.') == Split(s, '.') + [t]
    decreases |s|
  {
    if s == "" {
      SplitOne(t);
      assert (s + "." + t)[1..] == t;
    } else {
      assert (s + "." + t)[1..] == s[1..] + "." + t;
      SplitAppend(s[1..], t);
    }
  }

  function Decimals(components: seq<nat>): seq<string> {
    seq(|components|, i requires 0 <= i < |components| => Decimal(components[i]))
  }

  lemma DecimalNoDot(n: nat)
    ensures '.' !in Decimal(n)
  {
    DecimalValue(n);
    assert !IsDigit('.');
  }

  lemma {:induction false} SplitDots(components: seq<nat>)
    requires components != []
    ensures Split(Dots(components), '.') == Decimals(components)
    decreases |components|
  {
    var n := |components| - 1;
    DecimalNoDot(components[n]);
    hide Decimal;
    if n == 0 {
      SplitOne(Decimal(components[0]));
    } else {
      SplitDots(components[..n]);
      SplitAppend(Dots(components[..n]), Decimal(components[n]));
      assert Decimals(components) == Decimals(components[..n]) + [Decimal(components[n])];
    }
  }

  lemma {:induction false} DecimalsParse(components: seq<nat>, semver: bool, i: nat)
    requires i <= |components| && forall c <- components :: c < UINT_LIMIT
    ensures ParseComponents(Decimals(components), semver, i) == Ok(components[i..])
    decreases |components| - i
  {
    hide ParseUint, HasZeroPrefix, Decimal;
    if i < |components| {
      assert components[i] in components;
      DecimalParses(components[i]);
      DecimalsParse(components, semver, i + 1);
      assert components[i..] == [components[i]] + components[i + 1..];
    }
  }

  // ----- Parse and print ---------------------------------------------------------------------------------------------

  predicate Identifiers(s: string) {
    s == "" || Dotted(s, IsIdentifierChar) == |s|
  }

  /** What parsing in a mode returns. */
  predicate Canonical(v: Version) {
    && (if v.semver then |v.components| == 3 else |v.components| >= 2)
    && (forall c <- v.components :: c < UINT_LIMIT)
    && (!v.semver ==> v.preRelease == "" && v.buildMetadata == "")
    && Identifiers(v.preRelease) && Identifiers(v.buildMetadata)
    && GoodFields(Split(v.preRelease, '.'))
  }

  lemma {:induction false} DottedFront(s: string, p: char -> bool)
    ensures Dotted(s, p) > 0 ==> Dotted(s[..Dotted(s, p)], p) == Dotted(s, p)
    decreases |s|
  {
    var n := Span(s, p);
    if n > 0 {
      if n + 1 < |s| && s[n] == '.' && p(s[n + 1]) {
        DottedDot(s, p);
        DottedPositive(s[n + 1..], p);
        DottedFront(s[n + 1..], p);
        hide Dotted, Span;
        FrontWithDot(s, p, n, Dotted(s[n + 1..], p));
      } else {
        FrontWithoutDot(s, p, n);
        assert Dotted(s, p) == n;
        hide Dotted, Span;
      }
    }
  }

  lemma FrontWithDot(s: string, p: char -> bool, n: nat, m: nat)
    requires n == Span(s, p) > 0 && n + 1 < |s| && s[n] == '.' && p(s[n + 1]) && 0 < m <= |s| - n - 1
    requires Dotted(s[n + 1..][..m], p) == m
    ensures Dotted(s[..n + 1 + m], p) == n + 1 + m
  {
    hide Dotted, Span;
    var front := s[..n + 1 + m];
    SpanStops(s, n + 1 + m, p);
    assert front[n] == s[n] && front[n + 1] == s[n + 1];
    DottedDot(front, p);
    CutFront(s, n, m);
  }

  lemma FrontWithoutDot(s: string, p: char -> bool, n: nat)
    requires n == Span(s, p) > 0
    ensures Dotted(s[..n], p) == n
  {
    SpanStops(s, n, p);
  }

  lemma CutFront(s: string, n: nat, m: nat)
    requires n + 1 + m <= |s|
    ensures s[..n + 1 + m][n + 1..] == s[n + 1..][..m]
  {
  }

  /** Dotted text goes on behind a dot. */
  lemma DottedDot(s: string, p: char -> bool)
    requires var n := Span(s, p); n > 0 && n + 1 < |s| && s[n] == '.' && p(s[n + 1])
    ensures Dotted(s, p) == Span(s, p) + 1 + Dotted(s[Span(s, p) + 1..], p)
  {
  }

  lemma DottedPositive(s: string, p: char -> bool)
    requires s != "" && p(s[0])
    ensures Dotted(s, p) > 0
  {
  }

  lemma {:induction false} SpanFront(s: string, p: char -> bool)
    ensures forall i :: 0 <= i < Span(s, p) ==> p(s[i])
    ensures Span(s, p) < |s| ==> !p(s[Span(s, p)])
    decreases |s|
  {
    if s != "" && p(s[0]) { SpanFront(s[1..], p); }
  }

  lemma {:induction false} SpanStops(s: string, n: nat, p: char -> bool)
    requires Span(s, p) <= n <= |s|
    ensures Span(s[..n], p) == Span(s, p)
    decreases |s|
  {
    if s != "" && p(s[0]) {
      assert s[..n][1..] == s[1..][..n - 1];
      SpanStops(s[1..], n - 1, p);
    }
  }

  lemma {:induction false} ComponentsBound(parts: seq<string>, semver: bool, i: nat)
    requires i <= |parts| && ParseComponents(parts, semver, i).Ok?
    ensures |ParseComponents(parts, semver, i).value| == |parts| - i
    ensures forall c <- ParseComponents(parts, semver, i).value :: c < UINT_LIMIT
    decreases |parts| - i
  {
    if i < |parts| { ComponentsBound(parts, semver, i + 1); }
  }

  lemma PartIdentifiers(s: string, mark: char)
    ensures Identifiers(MatchPart(s, mark).0)
  {
    if s != "" { DottedFront(s[1..], IsIdentifierChar); }
  }

  lemma EmptyFields()
    ensures GoodFields(Split("", '.'))
  {
  }

  lemma ParseIsCanonical(str: string, semver: bool)
    requires Parse(str, semver).Ok?
    ensures Canonical(Parse(str, semver).value) && Parse(str, semver).value.semver == semver
  {
    var (numbers, extra) := MatchVersion(str).value;
    ComponentsBound(Split(numbers, '.'), semver, 0);
    EmptyFields();
    hide MatchVersion, ParseComponents, MatchPart, GoodFields, Identifiers, Split, SkipSpaces;
    assert Identifiers("") by { EmptyIdentifiers(); }
    PartIdentifiers(extra, '-');
    PartIdentifiers(MatchPart(extra, '-').1, '+');
  }

  lemma EmptyIdentifiers()
    ensures Identifiers("")
  {
  }

  lemma {:induction false} DotsStart(components: seq<nat>)
    requires components != []
    ensures Dots(components) != "" && IsDigit(Dots(components)[0])
    decreases |components|
  {
    if |components| == 1 {
      DecimalValue(components[0]);
      assert Decimal(components[0])[0] in Decimal(components[0]);
    } else {
      DotsStart(components[..|components| - 1]);
    }
  }

  /** The same text with the first component in front. */
  lemma {:induction false} DotsFirst(components: seq<nat>)
    requires |components| > 1
    ensures Dots(components) == Decimal(components[0]) + "." + Dots(components[1..])
    decreases |components|
  {
    var n := |components| - 1;
    var front, last := components[..n], Decimal(components[n]);
    hide Decimal;
    if n > 1 {
      DotsFirst(front);
      assert front[1..] == components[1..][..n - 1];
      assert Decimal(components[0]) + "." + Dots(front[1..]) + "." + last ==
             Decimal(components[0]) + "." + (Dots(front[1..]) + "." + last);
    }
  }

  lemma {:induction false} DottedDots(components: seq<nat>, rest: string)
    requires components != [] && (rest == "" || rest[0] == '-' || rest[0] == '+')
    ensures Dotted(Dots(components) + rest, IsDigit) == |Dots(components)|
    decreases |components|
  {
    var first := Decimal(components[0]);
    DecimalValue(components[0]);
    hide Decimal, Dots, Dotted;
    if |components| == 1 {
      DotsSingle(components);
      DottedStep(first, rest, IsDigit);
    } else {
      DotsFirst(components);
      var tail := Dots(components[1..]);
      DotsStart(components[1..]);
      DottedDots(components[1..], rest);
      var t := "." + (tail + rest);
      assert Dots(components) + rest == first + t;
      assert t[1..] == tail + rest;
      DottedStep(first, t, IsDigit);
    }
  }

  lemma DotsSingle(components: seq<nat>)
    requires |components| == 1
    ensures Dots(components) == Decimal(components[0])
  {
  }

  lemma {:induction false} DottedAll(s: string, t: string, p: char -> bool)
    requires s != "" && Dotted(s, p) == |s| && !p('.')
    requires t == "" || (t[0] != '.' && !p(t[0]))
    ensures Dotted(s + t, p) == |s|
    decreases |s|
  {
    DottedShape(s, p);
    hide Dotted, Span;
    var n := Span(s, p);
    SpanPart(s, p, n);
    if n < |s| {
      DottedAll(s[n + 1..], t, p);
      CutAt(s, t, n);
      DottedStep(s[..n], s[n..] + t, p);
    } else {
      assert s[..n] == s;
      DottedStep(s, t, p);
    }
  }

  lemma SpanPart(s: string, p: char -> bool, n: nat)
    requires n <= |s| && forall i :: 0 <= i < n ==> p(s[i])
    ensures forall c <- s[..n] :: p(c)
  {
  }

  /** A concatenation, cut inside its first part. */
  lemma CutAt(s: string, t: string, n: nat)
    requires n < |s|
    ensures s[..n] + (s[n..] + t) == s + t
    ensures (s[n..] + t)[0] == s[n] && (n + 1 < |s| ==> (s[n..] + t)[1] == s[n + 1])
    ensures (s[n..] + t)[1..] == s[n + 1..] + t
  {
  }

  lemma DottedShape(s: string, p: char -> bool)
    requires s != "" && Dotted(s, p) == |s|
    ensures var n := Span(s, p);
            && 0 < n <= |s| && (forall i :: 0 <= i < n ==> p(s[i]))
            && (n < |s| ==> n + 1 < |s| && s[n] == '.' && p(s[n + 1]) && Dotted(s[n + 1..], p) == |s| - n - 1)
  {
    SpanFront(s, p);
  }

  lemma {:induction false} IdentifierText(s: string)
    requires s != "" && Dotted(s, IsIdentifierChar) == |s|
    ensures '\n' !in s
    decreases |s|
  {
    var n := Span(s, IsIdentifierChar);
    SpanFront(s, IsIdentifierChar);
    assert !IsIdentifierChar('\n');
    if n < |s| {
      assert s[n] == '.' && Dotted(s[n + 1..], IsIdentifierChar) == |s| - n - 1;
      hide Dotted, IsIdentifierChar;
      IdentifierText(s[n + 1..]);
      forall i | 0 <= i < |s| ensures s[i] != '\n' {
        if i > n { assert s[i] == s[n + 1..][i - n - 1]; }
      }
    }
  }

  lemma PartMatches(text: string, mark: char, rest: string)
    requires text != "" && Identifiers(text) && (rest == "" || rest[0] == '+')
    ensures MatchPart([mark] + text + rest, mark) == (text, rest)
  {
    var s := [mark] + text + rest;
    assert s[1..] == text + rest;
    assert !IsIdentifierChar('.') && !IsIdentifierChar('+');
    DottedAll(text, rest, IsIdentifierChar);
    hide Dotted;
    assert s[1..][..|text|] == text && s[1..][|text|..] == rest;
  }

  lemma NoPart(rest: string, mark: char)
    requires rest == "" || rest[0] != mark
    ensures MatchPart(rest, mark) == ("", rest)
  {
  }

  lemma ExtraMatches(v: Version)
    requires Identifiers(v.preRelease) && Identifiers(v.buildMetadata)
    ensures MatchExtra(Extra(v)) == Some((v.preRelease, v.buildMetadata))
  {
    var build := if v.buildMetadata != "" then "+" + v.buildMetadata else "";
    hide MatchPart, Identifiers;
    if v.preRelease != "" {
      PartMatches(v.preRelease, '-', build);
      assert Extra(v) == ['-'] + v.preRelease + build;
    } else {
      NoPart(build, '-');
      assert Extra(v) == build;
    }
    if v.buildMetadata != "" {
      PartMatches(v.buildMetadata, '+', "");
      assert build == ['+'] + v.buildMetadata + "";
    } else {
      NoPart("", '+');
    }
  }

  lemma ExtraText(v: Version)
    requires Identifiers(v.preRelease) && Identifiers(v.buildMetadata)
    ensures '\n' !in Extra(v) && (Extra(v) == "" || Extra(v)[0] == '-' || Extra(v)[0] == '+')
    ensures Extra(v) == "" <==> v.preRelease == "" && v.buildMetadata == ""
  {
    if v.preRelease != "" { IdentifierText(v.preRelease); }
    if v.buildMetadata != "" { IdentifierText(v.buildMetadata); }
    hide Dotted;
  }

  lemma PrintMatches(v: Version)
    requires Canonical(v)
    ensures MatchVersion(Print(v)) == Some((Dots(v.components), Extra(v)))
  {
    var s := Print(v);
    DotsStart(v.components);
    ExtraText(v);
    DottedDots(v.components, Extra(v));
    assert s[0] == Dots(v.components)[0];
    assert SkipSpaces(s) == s;
    assert s[..|Dots(v.components)|] == Dots(v.components) && s[|Dots(v.components)|..] == Extra(v);
    hide Dotted, Dots, Extra, GoodFields, Identifiers;
  }

  /** Printing and parsing again in the same mode gives the same version. */
  lemma PrintParses(v: Version)
    requires Canonical(v)
    ensures Parse(Print(v), v.semver) == Ok(v)
  {
    PrintMatches(v);
    SplitDots(v.components);
    DecimalsParse(v.components, v.semver, 0);
    assert v.components[0..] == v.components;
    ExtraMatches(v);
    ExtraText(v);
    hide MatchVersion, MatchExtra, Dots, Extra, GoodFields, Identifiers, Split, ParseComponents, Print;
  }

  /** Every version that parsing returns is reproduced from its printed form. */
  lemma ParsePrintParse(str: string, semver: bool)
    requires Parse(str, semver).Ok?
    ensures Parse(Print(Parse(str, semver).value), semver) == Parse(str, semver)
  {
    ParseIsCanonical(str, semver);
    PrintParses(Parse(str, semver).value);
  }

  /** The canonical versions are exactly those that parsing can return. */
  lemma CanonicalIff(v: Version)
    ensures Canonical(v) <==> exists str :: Parse(str, v.semver) == Ok(v)
  {
    if Canonical(v) {
      PrintParses(v);
    }
    if exists str :: Parse(str, v.semver) == Ok(v) {
      var str :| Parse(str, v.semver) == Ok(v);
      ParseIsCanonical(str, v.semver);
    }
  }
}
