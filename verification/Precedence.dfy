/** Precedence as section 11 of Semantic Versioning 2.0.0 defines it, and when the comparison of the source agrees. */
module Precedence {
  import opened Common
  import opened Versions

  // ----- Section 11 -----------------------------------------------------------------------------------------

  /** Numeric identifiers by value, others in ASCII order, and every numeric one below every other one. */
  function IdentifierPrecedence(a: string, b: string): int {
    if AllDigits(a) && AllDigits(b) then Sign(Value(a), Value(b))
    else if AllDigits(a) then -1
    else if AllDigits(b) then 1
    else StringOrder(a, b)
  }

  /** Field by field from the left; of two lists that agree as far as one goes the longer one is higher. */
  function FieldsPrecedence(a: seq<string>, b: seq<string>): int {
    if a == [] && b == [] then 0
    else if a == [] then -1
    else if b == [] then 1
    else if IdentifierPrecedence(a[0], b[0]) != 0 then IdentifierPrecedence(a[0], b[0])
    else FieldsPrecedence(a[1..], b[1..])
  }

  /** The pre-release identifiers; none for a normal version. */
  function Fields(v: Version): seq<string> {
    if v.preRelease == "" then [] else Split(v.preRelease, '.')
  }

  /** A normal version is above all its pre-releases; build metadata does not count. */
  function PreReleasePrecedence(a: seq<string>, b: seq<string>): int {
    if a == [] && b == [] then 0 else if a == [] then 1 else if b == [] then -1 else FieldsPrecedence(a, b)
  }

  /** Major, minor and patch in this order, then the pre-release. */
  function VersionPrecedence(v: Version, w: Version): int
    requires |v.components| == 3 == |w.components|
  {
    if v.components[0] != w.components[0] then Sign(v.components[0], w.components[0])
    else if v.components[1] != w.components[1] then Sign(v.components[1], w.components[1])
    else if v.components[2] != w.components[2] then Sign(v.components[2], w.components[2])
    else PreReleasePrecedence(Fields(v), Fields(w))
  }

  // ----- Where the source agrees --------------------------------------------------------------------------------

  /** Numeric and small enough for the machine, or starting with a letter. */
  predicate Ordinary(id: string) {
    id != "" && (IsLetter(id[0]) || (AllDigits(id) && Value(id) < UINT_LIMIT))
  }

  ghost predicate OrdinaryFields(fields: seq<string>) {
    forall id <- fields :: Ordinary(id)
  }

  lemma FirstDecides(a: string, b: string)
    requires a != "" && b != "" && a[0] < b[0]
    ensures StringOrder(a, b) == -1 && StringOrder(b, a) == 1
  {
  }

  lemma IdentifiersAgree(a: string, b: string)
    requires Ordinary(a) && Ordinary(b)
    ensures CompareIdentifiers(a, b) == IdentifierPrecedence(a, b)
  {
    assert a[0] in a && b[0] in b;
    if AllDigits(a) && !AllDigits(b) { FirstDecides(a, b); }
    if !AllDigits(a) && AllDigits(b) { FirstDecides(b, a); }
  }

  /** a is a proper beginning of b as far as precedence can tell. */
  ghost predicate ProperBeginning(a: seq<string>, b: seq<string>) {
    |a| < |b| && forall i :: 0 <= i < |a| ==> IdentifierPrecedence(a[i], b[i]) == 0
  }

  lemma {:induction false} FieldsAgreeFrom(a: seq<string>, b: seq<string>, i: nat)
    requires OrdinaryFields(a) && OrdinaryFields(b) && i <= |a| && i <= |b|
    requires forall k :: 0 <= k < i ==> IdentifierPrecedence(a[k], b[k]) == 0
    ensures ProperBeginning(a, b) ==> CompareFields(a, b, i) == 0 && FieldsPrecedence(a[i..], b[i..]) == -1
    ensures !ProperBeginning(a, b) ==> CompareFields(a, b, i) == FieldsPrecedence(a[i..], b[i..])
    decreases |a| - i
  {
    hide IdentifierPrecedence, CompareIdentifiers, Ordinary;
    if i < |a| && i < |b| {
      assert a[i] in a && b[i] in b;
      IdentifiersAgree(a[i], b[i]);
      assert a[i..][1..] == a[i + 1..] && b[i..][1..] == b[i + 1..];
      if IdentifierPrecedence(a[i], b[i]) == 0 {
        FieldsAgreeFrom(a, b, i + 1);
      }
    }
  }

  lemma {:induction false} FieldsRefl(a: seq<string>)
    ensures FieldsPrecedence(a, a) == 0
    decreases |a|
  {
    if a != [] {
      IdentifierRefl(a[0]);
      FieldsRefl(a[1..]);
    }
  }

  lemma IdentifierRefl(a: string)
    ensures IdentifierPrecedence(a, a) == 0
  {
    OrderZero(a, a);
  }

  lemma {:induction false} OrderZero(a: string, b: string)
    ensures StringOrder(a, b) == 0 <==> a == b
    decreases |a|
  {
    if a != "" && b != "" {
      OrderZero(a[1..], b[1..]);
      assert a == [a[0]] + a[1..] && b == [b[0]] + b[1..];
    }
  }

  ghost predicate Semantic(v: Version) {
    v.semver && |v.components| == 3 && OrdinaryFields(Fields(v))
  }

  lemma ComponentsOfThree(v: seq<nat>, w: seq<nat>)
    requires |v| == 3 == |w|
    ensures CompareComponents(v, w, 0) ==
            if v[0] != w[0] then Sign(v[0], w[0]) else if v[1] != w[1] then Sign(v[1], w[1]) else Sign(v[2], w[2])
  {
    assert CompareComponents(v, w, 3) == 0;
    assert CompareComponents(v, w, 2) == Sign(v[2], w[2]);
    assert CompareComponents(v, w, 1) == if v[1] != w[1] then Sign(v[1], w[1]) else Sign(v[2], w[2]);
  }

  /**
   The comparison is semantic precedence exactly unless both versions have pre-releases, agree
   otherwise, and the left one's fields are a proper beginning of the right one's.
   */
  lemma CompareIsPrecedenceIff(v: Version, w: Version)
    requires Semantic(v) && Semantic(w)
    ensures Compare(v, w) == VersionPrecedence(v, w) <==>
            !(v.components == w.components && Fields(v) != [] && ProperBeginning(Fields(v), Fields(w)))
  {
    ComponentsOfThree(v.components, w.components);
    assert v.components == w.components <==> (forall i :: 0 <= i < 3 ==> v.components[i] == w.components[i]);
    hide CompareComponents, CompareFields, FieldsPrecedence, Split, IdentifierPrecedence, OrdinaryFields;
    var a, b := Fields(v), Fields(w);
    FieldsAgreeFrom(a, b, 0);
    assert a[0..] == a && b[0..] == b;
    FieldsRefl(a);
  }

  /** In particular with at least as many pre-release fields on the left. */
  lemma CompareIsPrecedence(v: Version, w: Version)
    requires Semantic(v) && Semantic(w)
    requires |Fields(v)| >= |Fields(w)| || Fields(v) == []
    ensures Compare(v, w) == VersionPrecedence(v, w)
  {
    CompareIsPrecedenceIff(v, w);
  }

  // ----- Precedence is a total order ------------------------------------------------------------------------------

  lemma {:induction false} OrderLaws(a: string, b: string, c: string)
    ensures StringOrder(a, b) == -StringOrder(b, a)
    ensures StringOrder(a, b) <= 0 && StringOrder(b, c) <= 0 ==>
              StringOrder(a, c) <= 0 && (StringOrder(a, c) == 0 ==> StringOrder(a, b) == 0 && StringOrder(b, c) == 0)
    decreases |a| + |b| + |c|
  {
    if a != "" && b != "" {
      OrderLaws(a[1..], b[1..], if c != "" then c[1..] else "");
    }
  }

  lemma IdentifierLaws(a: string, b: string, c: string)
    ensures IdentifierPrecedence(a, b) == -IdentifierPrecedence(b, a)
    ensures IdentifierPrecedence(a, b) <= 0 && IdentifierPrecedence(b, c) <= 0 ==>
              IdentifierPrecedence(a, c) <= 0 &&
              (IdentifierPrecedence(a, c) == 0 ==> IdentifierPrecedence(a, b) == 0 && IdentifierPrecedence(b, c) == 0)
  {
    OrderLaws(a, b, c);
    hide AllDigits, Value, StringOrder;
  }

  lemma {:induction false} FieldsLaws(a: seq<string>, b: seq<string>, c: seq<string>)
    ensures FieldsPrecedence(a, b) == -FieldsPrecedence(b, a)
    ensures FieldsPrecedence(a, b) <= 0 && FieldsPrecedence(b, c) <= 0 ==>
              FieldsPrecedence(a, c) <= 0 &&
              (FieldsPrecedence(a, c) == 0 ==> FieldsPrecedence(a, b) == 0 && FieldsPrecedence(b, c) == 0)
    decreases |a| + |b| + |c|
  {
    hide IdentifierPrecedence;
    if a != [] && b != [] {
      IdentifierLaws(a[0], b[0], if c != [] then c[0] else "");
      FieldsLaws(a[1..], b[1..], if c != [] then c[1..] else []);
    }
  }

  lemma PreReleaseLaws(a: seq<string>, b: seq<string>, c: seq<string>)
    ensures PreReleasePrecedence(a, b) == -PreReleasePrecedence(b, a)
    ensures PreReleasePrecedence(a, b) <= 0 && PreReleasePrecedence(b, c) <= 0 ==> PreReleasePrecedence(a, c) <= 0
  {
    FieldsLaws(a, b, c);
    hide FieldsPrecedence;
  }

  lemma PrecedenceLaws(u: Version, v: Version, w: Version)
    requires |u.components| == 3 == |v.components| && |w.components| == 3
    ensures VersionPrecedence(u, v) == -VersionPrecedence(v, u)
    ensures VersionPrecedence(u, v) <= 0 && VersionPrecedence(v, w) <= 0 ==> VersionPrecedence(u, w) <= 0
  {
    PreReleaseLaws(Fields(u), Fields(v), Fields(w));
    hide PreReleasePrecedence, Fields;
  }

  /** Equal numbers of pre-release fields, where both are pre-releases. */
  predicate SameShape(v: Version, w: Version) {
    Fields(v) == [] || Fields(w) == [] || |Fields(v)| == |Fields(w)|
  }

  lemma ShapeAgrees(v: Version, w: Version)
    requires Semantic(v) && Semantic(w) && SameShape(v, w)
    ensures Compare(v, w) == VersionPrecedence(v, w) && Compare(w, v) == VersionPrecedence(w, v)
  {
    CompareIsPrecedenceIff(v, w);
    CompareIsPrecedenceIff(w, v);
    hide Compare, VersionPrecedence, Fields;
  }

  /** On versions of the same shape the comparison is antisymmetric and transitive. */
  lemma CompareOrders(u: Version, v: Version, w: Version)
    requires Semantic(u) && Semantic(v) && Semantic(w)
    requires SameShape(u, v) && SameShape(v, w) && SameShape(u, w)
    ensures Compare(u, v) == -Compare(v, u)
    ensures Compare(u, v) <= 0 && Compare(v, w) <= 0 ==> Compare(u, w) <= 0
  {
    hide Compare, VersionPrecedence, SameShape, OrdinaryFields;
    ShapeAgrees(u, v);
    ShapeAgrees(v, w);
    ShapeAgrees(u, w);
    PrecedenceLaws(u, v, w);
  }

  /** AtLeast, in terms of precedence. */
  lemma AtLeastIsPrecedence(v: Version, min: Version)
    requires Semantic(v) && Semantic(min) && (|Fields(v)| >= |Fields(min)| || Fields(v) == [])
    ensures AtLeast(v, min) <==> VersionPrecedence(v, min) >= 0
  {
    CompareIsPrecedence(v, min);
    PrecedenceSign(v, min);
  }

  lemma PrecedenceSign(v: Version, w: Version)
    requires |v.components| == 3 == |w.components|
    ensures -1 <= VersionPrecedence(v, w) <= 1
  {
    FieldsSign(Fields(v), Fields(w));
    hide Fields;
  }

  lemma {:induction false} FieldsSign(a: seq<string>, b: seq<string>)
    ensures -1 <= FieldsPrecedence(a, b) <= 1
    decreases |a|
  {
    if a != [] && b != [] {
      OrderSign(a[0], b[0]);
      FieldsSign(a[1..], b[1..]);
    }
  }

  lemma {:induction false} OrderSign(a: string, b: string)
    ensures -1 <= StringOrder(a, b) <= 1
    decreases |a|
  {
    if a != "" && b != "" { OrderSign(a[1..], b[1..]); }
  }

  // ----- Where it does not -----------------------------------------------------------------------------------------

  /** A shorter list of fields on the left compares as equal to any list that goes on from it. */
  lemma ShorterComparesEqual(a: seq<string>, more: seq<string>)
    requires OrdinaryFields(a) && OrdinaryFields(more) && more != []
    ensures CompareFields(a, a + more, 0) == 0 && FieldsPrecedence(a, a + more) == -1
    ensures CompareFields(a + more, a, 0) == 1
  {
    var b := a + more;
    hide IdentifierPrecedence, CompareIdentifiers, Ordinary;
    forall i | 0 <= i < |a| ensures IdentifierPrecedence(a[i], b[i]) == 0 { IdentifierRefl(a[i]); }
    FieldsAgreeFrom(a, b, 0);
    assert a[0..] == a && b[0..] == b;
    FieldsAgreeFrom(b, a, 0);
    FieldsLaws(a, b, []);
  }

  /** Identifiers that start with a digit without being numbers make the comparison go round in circles. */
  lemma MixedIdentifiersCycle()
    ensures CompareIdentifiers("2", "10") == -1
    ensures CompareIdentifiers("10", "1a") == -1
    ensures CompareIdentifiers("1a", "2") == -1
  {
    assert "2"[..0] == "" && Value("2") == 2;
    assert "10"[..1] == "1" && "1"[..0] == "" && Value("1") == 1 && Value("10") == 10;
    assert "1a"[1] == 'a' && 'a' in "1a" && !IsDigit('a') && ParseUint("1a") == None;
    assert "10"[1..] == "0" && "1a"[1..] == "a" && StringOrder("0", "a") == -1;
  }
}
