/**
 The pre-release identifiers of Semantic Versioning 2.0.0 without restriction: for which pairs,
 and so for which versions, the comparison of the source is the precedence of section 11.
 */
module Identifiers {
  import opened Common
  import opened Versions
  import opened Precedence
  import VersionText

  /** Section 9: letters, digits and hyphens, no superfluous zero in front of a number. */
  predicate Valid(id: string) {
    && id != ""
    && (forall c <- id :: IsDigit(c) || IsLetter(c) || c == '-')
    && (AllDigits(id) && |id| > 1 ==> id[0] != '0')
  }

  ghost predicate ValidFields(fields: seq<string>) {
    forall id <- fields :: Valid(id)
  }

  /** A number that a machine word holds. */
  predicate Fits(id: string) {
    ParseUint(id).Some?
  }

  predicate TextFirst(a: string, b: string) {
    StringOrder(a, b) == -1
  }

  /**
   Two numbers agree if both fit or the one with fewer digits also comes first as text; a number
   and another identifier do if the number comes first as text.
   */
  predicate Agree(a: string, b: string) {
    if AllDigits(a) && AllDigits(b) then
      (Fits(a) && Fits(b)) || |a| == |b| || (if |a| < |b| then TextFirst(a, b) else TextFirst(b, a))
    else if AllDigits(a) then TextFirst(a, b)
    else if AllDigits(b) then TextFirst(b, a)
    else true
  }

  // ----- Numbers as text ----------------------------------------------------------------------------

  function Pow10(n: nat): (r: nat)
    ensures r > 0
  {
    if n == 0 then 1 else 10 * Pow10(n - 1)
  }

  lemma {:induction false} Pow10Grows(m: nat, n: nat)
    requires m <= n
    ensures Pow10(m) <= Pow10(n)
    decreases n
  {
    if m < n { Pow10Grows(m, n - 1); }
  }

  lemma {:induction false} ValueBelow(s: string)
    requires forall c <- s :: IsDigit(c)
    ensures Value(s) < Pow10(|s|)
    decreases |s|
  {
    if s != "" { ValueBelow(s[..|s| - 1]); }
  }

  lemma {:induction false} ValueAbove(s: string)
    requires AllDigits(s) && s[0] != '0'
    ensures Value(s) >= Pow10(|s| - 1)
    decreases |s|
  {
    var n := |s| - 1;
    if n == 0 {
      assert s[0] in s && Value(s[..0]) == 0;
    } else {
      ValueAbove(s[..n]);
    }
  }

  /** Without superfluous zeros fewer digits are a smaller number. */
  lemma ShorterIsSmaller(a: string, b: string)
    requires AllDigits(a) && AllDigits(b) && Valid(b) && |a| < |b|
    ensures Value(a) < Value(b)
  {
    ValueBelow(a);
    ValueAbove(b);
    Pow10Grows(|a|, |b| - 1);
  }

  /** The last characters decide only where the text before them does not. */
  lemma {:induction false} OrderSnoc(a: string, x: char, b: string, y: char)
    requires |a| == |b|
    ensures StringOrder(a + [x], b + [y]) ==
            if StringOrder(a, b) != 0 then StringOrder(a, b) else if x < y then -1 else if y < x then 1 else 0
    decreases |a|
  {
    if a == "" {
      assert a + [x] == [x] && b + [y] == [y];
      assert [x][1..] == [] && [y][1..] == [];
    } else {
      assert (a + [x])[1..] == a[1..] + [x] && (b + [y])[1..] == b[1..] + [y];
      OrderSnoc(a[1..], x, b[1..], y);
    }
  }

  /** Numbers of the same length are ordered like their text. */
  lemma {:induction false} SameLengthOrder(a: string, b: string)
    requires |a| == |b| && (forall c <- a :: IsDigit(c)) && (forall c <- b :: IsDigit(c))
    ensures StringOrder(a, b) == Sign(Value(a), Value(b))
    decreases |a|
  {
    if a != "" {
      var n := |a| - 1;
      SameLengthOrder(a[..n], b[..n]);
      OrderSnoc(a[..n], a[n], b[..n], b[n]);
      assert a == a[..n] + [a[n]] && b == b[..n] + [b[n]];
      assert a[n] in a && b[n] in b;
    }
  }

  // ----- Pairs of identifiers -------------------------------------------------------------------------

  lemma NumbersAgreeIff(a: string, b: string)
    requires Valid(a) && Valid(b) && AllDigits(a) && AllDigits(b)
    ensures CompareIdentifiers(a, b) == IdentifierPrecedence(a, b) <==> Agree(a, b)
    ensures IdentifierPrecedence(a, b) == 0 <==> a == b
    ensures CompareIdentifiers(a, b) == 0 <==> a == b
  {
    OrderZero(a, b);
    OrderLaws(a, b, a);
    OrderSign(a, b);
    hide Valid, AllDigits, StringOrder, Value;
    if |a| == |b| {
      assert (forall c <- a :: IsDigit(c)) && (forall c <- b :: IsDigit(c)) by { Digits(a); Digits(b); }
      SameLengthOrder(a, b);
    } else if |a| < |b| {
      ShorterIsSmaller(a, b);
    } else {
      ShorterIsSmaller(b, a);
    }
  }

  lemma Digits(a: string)
    requires AllDigits(a)
    ensures forall c <- a :: IsDigit(c)
  {
  }

  /** The comparison of two identifiers is their precedence exactly if they agree, and finds equal ones equal. */
  lemma IdentifiersAgreeIff(a: string, b: string)
    requires Valid(a) && Valid(b)
    ensures CompareIdentifiers(a, b) == IdentifierPrecedence(a, b) <==> Agree(a, b)
    ensures IdentifierPrecedence(a, b) == 0 <==> a == b
    ensures CompareIdentifiers(a, b) == 0 <==> a == b
  {
    if AllDigits(a) && AllDigits(b) {
      NumbersAgreeIff(a, b);
    } else {
      OrderZero(a, b);
      OrderLaws(a, b, a);
      OrderSign(a, b);
      hide StringOrder, Value, Valid;
    }
  }

  /** A hyphen in front puts an identifier on the wrong side of every number, a letter on the right one. */
  lemma FirstCharacterDecides(number: string, other: string)
    requires Valid(number) && Valid(other) && AllDigits(number)
    ensures other[0] == '-' ==> !Agree(number, other) && !Agree(other, number)
    ensures IsLetter(other[0]) ==> Agree(number, other) && Agree(other, number)
  {
    assert number[0] in number && other[0] in other;
    if other[0] == '-' {
      FirstDecides(other, number);
    } else if IsLetter(other[0]) {
      FirstDecides(number, other);
    }
  }

  // ----- Versions ---------------------------------------------------------------------------------------

  /** The first difference is one on which the identifiers agree, or the left list is not the one that ends first. */
  predicate FieldsAgree(a: seq<string>, b: seq<string>) {
    if a == [] then b == []
    else if b == [] then true
    else if a[0] == b[0] then FieldsAgree(a[1..], b[1..])
    else Agree(a[0], b[0])
  }

  lemma {:induction false} FieldsAgreeIff(a: seq<string>, b: seq<string>, i: nat)
    requires ValidFields(a) && ValidFields(b) && i <= |a| && i <= |b|
    ensures CompareFields(a, b, i) == FieldsPrecedence(a[i..], b[i..]) <==> FieldsAgree(a[i..], b[i..])
    decreases |a| - i
  {
    hide IdentifierPrecedence, CompareIdentifiers, Valid, Agree;
    if i < |a| && i < |b| {
      assert a[i] in a && b[i] in b;
      IdentifiersAgreeIff(a[i], b[i]);
      assert a[i..][1..] == a[i + 1..] && b[i..][1..] == b[i + 1..];
      if a[i] == b[i] { FieldsAgreeIff(a, b, i + 1); }
    }
  }

  /**
   On all semantic versions: the comparison is precedence exactly if the components differ or the
   pre-releases agree.
   */
  lemma CompareIsPrecedenceExactly(v: Version, w: Version)
    requires v.semver && w.semver && |v.components| == 3 == |w.components|
    requires ValidFields(Fields(v)) && ValidFields(Fields(w))
    ensures Compare(v, w) == VersionPrecedence(v, w) <==>
            || v.components != w.components || Fields(v) == [] || Fields(w) == []
            || FieldsAgree(Fields(v), Fields(w))
  {
    ComponentsOfThree(v.components, w.components);
    assert v.components == w.components <==> (forall i :: 0 <= i < 3 ==> v.components[i] == w.components[i]);
    hide CompareComponents, CompareFields, FieldsPrecedence, FieldsAgree, Split, ValidFields;
    var a, b := Fields(v), Fields(w);
    FieldsAgreeIff(a, b, 0);
    assert a[0..] == a && b[0..] == b;
    FieldsRefl(a);
    if a == b { AgreeRefl(a); }
  }

  lemma {:induction false} AgreeRefl(a: seq<string>)
    ensures FieldsAgree(a, a)
    decreases |a|
  {
    if a != [] { AgreeRefl(a[1..]); }
  }

  lemma LimitBelow()
    ensures Pow10(22) >= UINT_LIMIT
  {
    assert Pow10(11) == 100000000000;
    assert Pow10(22) == 10000000000000000000000;
  }

  /** A number of more than 64 bits is taken as text, and so it sorts below a small one. */
  lemma WideNumbersDisagree()
    ensures CompareIdentifiers("2", "10000000000000000000000") == 1
    ensures IdentifierPrecedence("2", "10000000000000000000000") == -1
  {
    var wide := "10000000000000000000000";
    assert |wide| == 23 && wide[0] == '1' && Valid(wide) && Valid("2") && AllDigits(wide) && AllDigits("2");
    hide Value, Valid, AllDigits, StringOrder;
    ShorterIsSmaller("2", wide);
    ValueAbove(wide);
    LimitBelow();
    FirstDecides(wide, "2");
  }

  // ----- The comparator goes round in circles ------------------------------------------------------------

  function PreRelease(id: string): Version {
    Version([1, 0, 0], true, id, "")
  }

  /** The text 1.0.0 with a pre-release of one identifier parses to that. */
  lemma PreReleaseParses(id: string)
    requires Valid(id) && '.' !in id
    ensures VersionText.Parse("1.0.0-" + id, true) == Ok(PreRelease(id))
    ensures Split(id, '.') == [id]
  {
    var v := PreRelease(id);
    VersionText.SplitOne(id);
    OneIdentifier(id);
    assert VersionText.Canonical(v);
    OneZeroZero();
    assert VersionText.Extra(v) == "-" + id;
    assert "1.0.0" + ("-" + id) == "1.0.0-" + id;
    hide VersionText.Parse, VersionText.Canonical;
    VersionText.PrintParses(v);
  }

  lemma OneZeroZero()
    ensures VersionText.Dots([1, 0, 0]) == "1.0.0"
  {
    assert VersionText.Decimal(1) == "1" && VersionText.Decimal(0) == "0";
    assert [1, 0, 0][..2] == [1, 0] && [1, 0][..1] == [1];
    assert VersionText.Dots([1]) == "1" && VersionText.Dots([1, 0]) == "1" + "." + "0";
    assert VersionText.Dots([1, 0, 0]) == VersionText.Dots([1, 0]) + "." + "0";
  }

  lemma OneIdentifier(id: string)
    requires Valid(id) && '.' !in id
    ensures VersionText.Identifiers(id) && VersionText.GoodFields([id])
  {
    assert forall c <- id :: VersionText.IsIdentifierChar(c);
    VersionText.SpanOf(id, "", VersionText.IsIdentifierChar);
    assert id + "" == id;
  }

  /** 1.0.0-2 is less than 1.0.0-10, that less than 1.0.0-1a, and that less than 1.0.0-2. */
  lemma VersionsCycle()
    ensures VersionText.Parse("1.0.0-2", true) == Ok(PreRelease("2"))
    ensures VersionText.Parse("1.0.0-10", true) == Ok(PreRelease("10"))
    ensures VersionText.Parse("1.0.0-1a", true) == Ok(PreRelease("1a"))
    ensures Compare(PreRelease("2"), PreRelease("10")) == -1
    ensures Compare(PreRelease("10"), PreRelease("1a")) == -1
    ensures Compare(PreRelease("1a"), PreRelease("2")) == -1
  {
    hide VersionText.Parse, CompareIdentifiers, Split;
    assert Valid("2") && Valid("10") && Valid("1a") by { hide Value; assert !IsDigit('a'); assert "1a"[1] == 'a'; }
    PreReleaseParses("2");
    PreReleaseParses("10");
    PreReleaseParses("1a");
    assert "1.0.0-" + "2" == "1.0.0-2" && "1.0.0-" + "10" == "1.0.0-10" && "1.0.0-" + "1a" == "1.0.0-1a";
    MixedIdentifiersCycle();
    CompareOne("2", "10");
    CompareOne("10", "1a");
    CompareOne("1a", "2");
  }

  lemma CompareOne(a: string, b: string)
    requires a != "" && b != "" && a != b && Split(a, '.') == [a] && Split(b, '.') == [b]
    ensures CompareIdentifiers(a, b) != 0 ==> Compare(PreRelease(a), PreRelease(b)) == CompareIdentifiers(a, b)
  {
    ComponentsOfThree([1, 0, 0], [1, 0, 0]);
    hide CompareIdentifiers, Split, CompareComponents;
  }
}
