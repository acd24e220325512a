/** Version numbers and their comparison (pkg/util/version), against Semantic Versioning 2.0.0. */
module Versions {
  import opened Common

  datatype Version = Version(components: seq<nat>, semver: bool, preRelease: string, buildMetadata: string)

  // ----- Strings ------------------------------------------------------------------------------------------

  /** strings.Split at a single character. */
  function Split(s: string, sep: char): (parts: seq<string>)
    ensures |parts| > 0
  {
    if s == "" then [""]
    else if s[0] == sep then [""] + Split(s[1..], sep)
    else
      var rest := Split(s[1..], sep);
      [[s[0]] + rest[0]] + rest[1..]
  }

  /** Byte-wise order of strings: -1, 0 or 1. */
  function StringOrder(a: string, b: string): int {
    if a == "" && b == "" then 0
    else if a == "" then -1
    else if b == "" then 1
    else if a[0] < b[0] then -1
    else if b[0] < a[0] then 1
    else StringOrder(a[1..], b[1..])
  }

  predicate IsDigit(c: char) {
    '0' <= c <= '9'
  }

  predicate IsLetter(c: char) {
    'a' <= c <= 'z' || 'A' <= c <= 'Z'
  }

  predicate AllDigits(s: string) {
    s != "" && forall c <- s :: IsDigit(c)
  }

  function DigitValue(c: char): (d: nat)
    requires IsDigit(c)
    ensures d < 10
  {
    c as int - '0' as int
  }

  /** The number that a string of digits denotes, however long. */
  function Value(s: string): nat
    requires forall c <- s :: IsDigit(c)
  {
    if s == "" then 0 else 10 * Value(s[..|s| - 1]) + DigitValue(s[|s| - 1])
  }

  const UINT_LIMIT: nat := 0x1_0000_0000_0000_0000

  /** strconv.ParseUint in base 10 on a 64-bit platform. */
  function ParseUint(s: string): Option<nat> {
    if AllDigits(s) && Value(s) < UINT_LIMIT then Some(Value(s)) else None
  }

  // ----- The comparison of the source ----------------------------------------------------------------------

  function Sign(a: int, b: int): int {
    if a < b then -1 else if a > b then 1 else 0
  }

  /** The first loop of compareInternal, from index i on. */
  function CompareComponents(v: seq<nat>, other: seq<nat>, i: nat): int
    decreases |v| - i
  {
    if i >= |v| then 0
    else if i >= |other| then (if v[i] != 0 then 1 else CompareComponents(v, other, i + 1))
    else if other[i] < v[i] then 1
    else if other[i] > v[i] then -1
    else CompareComponents(v, other, i + 1)
  }

  function CompareIdentifiers(a: string, b: string): int {
    var x, y := ParseUint(a), ParseUint(b);
    if x.Some? && y.Some? then Sign(x.value, y.value) else StringOrder(a, b)
  }

  /** The second loop, over the pre-release fields. */
  function CompareFields(v: seq<string>, other: seq<string>, i: nat): int
    decreases |v| - i
  {
    if i >= |v| then 0
    else if i >= |other| then 1
    else
      var c := CompareIdentifiers(v[i], other[i]);
      if c != 0 then c else CompareFields(v, other, i + 1)
  }

  function Compare(v: Version, other: Version): int {
    var c := CompareComponents(v.components, other.components, 0);
    if c != 0 then c
    else if !v.semver || !other.semver then 0
    else if v.preRelease == "" && other.preRelease != "" then 1
    else if v.preRelease != "" && other.preRelease == "" then -1
    else if v.preRelease == other.preRelease then 0
    else CompareFields(Split(v.preRelease, '.'), Split(other.preRelease, '.'), 0)
  }

  method CompareInternal(v: Version, other: Version) returns (r: int)
    ensures r == Compare(v, other)
  {
    hide CompareIdentifiers;
    for i := 0 to |v.components|
      invariant CompareComponents(v.components, other.components, 0) ==
        CompareComponents(v.components, other.components, i)
    {
      if i >= |other.components| {
        if v.components[i] != 0 { return 1; }
      } else if other.components[i] < v.components[i] {
        return 1;
      } else if other.components[i] > v.components[i] {
        return -1;
      }
    }
    if !v.semver || !other.semver { return 0; }
    if v.preRelease == "" && other.preRelease != "" { return 1; }
    if v.preRelease != "" && other.preRelease == "" { return -1; }
    if v.preRelease == other.preRelease { return 0; }
    var vPR, oPR := Split(v.preRelease, '.'), Split(other.preRelease, '.');
    for i := 0 to |vPR|
      invariant CompareFields(vPR, oPR, 0) == CompareFields(vPR, oPR, i)
    {
      if i >= |oPR| { return 1; }
      var c := CompareOne(vPR[i], oPR[i]);
      if c != 0 { return c; }
    }
    return 0;
  }

  method CompareOne(a: string, b: string) returns (r: int)
    ensures r == CompareIdentifiers(a, b)
  {
    var vNum := ParseUint(a);
    if vNum.Some? {
      var oNum := ParseUint(b);
      if oNum.Some? {
        if oNum.value < vNum.value { return 1; }
        if oNum.value > vNum.value { return -1; }
        return 0;
      }
    }
    return StringOrder(a, b);
  }

  // ----- Numeric components ---------------------------------------------------------------------------------

  /** Lexicographic order of two sequences of the same length. */
  function Lex(a: seq<nat>, b: seq<nat>): int
    requires |a| == |b|
  {
    if a == [] then 0 else if a[0] != b[0] then Sign(a[0], b[0]) else Lex(a[1..], b[1..])
  }

  /** Cut off, or filled up with zeros, to a length. */
  function Fitted(s: seq<nat>, n: nat): seq<nat> {
    seq(n, i requires 0 <= i < n => if i < |s| then s[i] else 0)
  }

  lemma {:induction false} ComponentsFrom(v: seq<nat>, other: seq<nat>, i: nat)
    requires i <= |v|
    ensures CompareComponents(v, other, i) == Lex(v[i..], Fitted(other, |v|)[i..])
    decreases |v| - i
  {
    if i < |v| {
      ComponentsFrom(v, other, i + 1);
      assert v[i..][1..] == v[i + 1..];
      assert Fitted(other, |v|)[i..][1..] == Fitted(other, |v|)[i + 1..];
    }
  }

  /** The component loop compares v with the other version fitted to v's length. */
  lemma ComponentsAreLex(v: seq<nat>, other: seq<nat>)
    ensures CompareComponents(v, other, 0) == Lex(v, Fitted(other, |v|))
  {
    ComponentsFrom(v, other, 0);
    assert v[0..] == v && Fitted(other, |v|)[0..] == Fitted(other, |v|);
  }

  function Longer(a: seq<nat>, b: seq<nat>): nat {
    if |a| < |b| then |b| else |a|
  }

  /** The documented order: components that are not there count as 0. */
  function PaddedOrder(v: seq<nat>, other: seq<nat>): int {
    Lex(Fitted(v, Longer(v, other)), Fitted(other, Longer(v, other)))
  }

  lemma {:induction false} LexPrefix(a: seq<nat>, b: seq<nat>, n: nat)
    requires |a| == |b| && n <= |a|
    ensures Lex(a, b) == if Lex(a[..n], b[..n]) != 0 then Lex(a[..n], b[..n]) else Lex(a[n..], b[n..])
    decreases n
  {
    if n == 0 {
      assert a[..0] == [] && a[0..] == a && b[0..] == b;
    } else {
      LexPrefix(a[1..], b[1..], n - 1);
      assert a[..n][1..] == a[1..][..n - 1] && b[..n][1..] == b[1..][..n - 1];
      assert a[n..] == a[1..][n - 1..] && b[n..] == b[1..][n - 1..];
    }
  }

  lemma {:induction false} LexZero(a: seq<nat>, b: seq<nat>)
    requires |a| == |b|
    ensures Lex(a, b) == 0 <==> a == b
    decreases |a|
  {
    if a != [] {
      LexZero(a[1..], b[1..]);
      assert a == [a[0]] + a[1..] && b == [b[0]] + b[1..];
    }
  }

  /**
   The loop agrees with the documented rule except when v is shorter, equal as far as it goes,
   and the other version goes on with something other than zeros.
   */
  lemma ComponentsDocumentedIff(v: seq<nat>, other: seq<nat>)
    ensures CompareComponents(v, other, 0) == PaddedOrder(v, other) <==>
            !(|v| < |other| && v == other[..|v|] && exists c <- other[|v|..] :: c != 0)
  {
    hide Lex;
    ComponentsAreLex(v, other);
    var n := Longer(v, other);
    var a, b := Fitted(v, n), Fitted(other, n);
    LexPrefix(a, b, |v|);
    assert a[..|v|] == v && b[..|v|] == Fitted(other, |v|);
    LexZero(v, Fitted(other, |v|));
    if |v| < |other| {
      assert Fitted(other, |v|) == other[..|v|];
      assert b[|v|..] == other[|v|..];
      assert a[|v|..] == Fitted([], |other| - |v|);
      ZerosFirst(other[|v|..]);
    } else {
      LexZero(a[|v|..], b[|v|..]);
    }
  }

  lemma ZerosFirst(s: seq<nat>)
    ensures Lex(Fitted([], |s|), s) == 0 <==> !exists c <- s :: c != 0
  {
    var zeros := Fitted([], |s|);
    LexZero(zeros, s);
    if zeros != s {
      var k :| 0 <= k < |s| && s[k] != zeros[k];
      assert s[k] in s;
    }
  }

  // ----- Versions, compared ------------------------------------------------------------------------------------

  predicate AtLeast(v: Version, min: Version) {
    Compare(v, min) != -1
  }

  predicate LessThan(v: Version, other: Version) {
    Compare(v, other) == -1
  }

  /** Unless both are semantic versions, only the components count. */
  lemma GenericIsLex(v: Version, w: Version)
    requires !v.semver || !w.semver
    ensures Compare(v, w) == Lex(v.components, Fitted(w.components, |v.components|))
  {
    ComponentsAreLex(v.components, w.components);
  }

  /** For semantic versions, too, the components come first. */
  lemma ComponentsComeFirst(v: Version, w: Version)
    requires Lex(v.components, Fitted(w.components, |v.components|)) != 0
    ensures Compare(v, w) == Lex(v.components, Fitted(w.components, |v.components|))
  {
    ComponentsAreLex(v.components, w.components);
  }

  /** The other version goes on with something other than zeros where v, equal so far, ends. */
  predicate CutShort(v: Version, w: Version) {
    && |v.components| < |w.components| && v.components == w.components[..|v.components|]
    && exists c <- w.components[|v.components|..] :: c != 0
  }

  lemma {:induction false} LexValues(a: seq<nat>, b: seq<nat>)
    requires |a| == |b|
    ensures Lex(a, b) in {-1, 0, 1} && Lex(b, a) == -Lex(a, b)
    decreases |a|
  {
    if a != [] && a[0] == b[0] { LexValues(a[1..], b[1..]); }
  }

  lemma PaddedValues(v: Version, w: Version)
    ensures PaddedOrder(v.components, w.components) in {-1, 0, 1}
    ensures PaddedOrder(w.components, v.components) == -PaddedOrder(v.components, w.components)
    ensures CutShort(v, w) ==> PaddedOrder(v.components, w.components) == -1
  {
    hide Lex;
    var n := Longer(v.components, w.components);
    assert Longer(w.components, v.components) == n;
    var a, b := Fitted(v.components, n), Fitted(w.components, n);
    LexValues(a, b);
    if CutShort(v, w) {
      var m := |v.components|;
      LexPrefix(a, b, m);
      assert a[..m] == v.components && b[..m] == w.components[..m];
      LexZero(a[..m], b[..m]);
      assert b[m..] == w.components[m..] && a[m..] == Fitted([], |w.components| - m);
      ZerosFirst(w.components[m..]);
      ZerosBelow(w.components[m..]);
    }
  }

  lemma {:induction false} ZerosBelow(s: seq<nat>)
    ensures Lex(Fitted([], |s|), s) <= 0
    decreases |s|
  {
    if s != [] {
      assert Fitted([], |s|)[1..] == Fitted([], |s[1..]|);
      ZerosBelow(s[1..]);
    }
  }

  /**
   AtLeast and LessThan follow the documented rule on generic versions, where components that are not
   there count as 0, exactly if v is not cut short; a version that is counts as large enough.
   */
  lemma GenericDocumentedIff(v: Version, w: Version)
    requires !v.semver || !w.semver
    ensures (AtLeast(v, w) <==> PaddedOrder(v.components, w.components) >= 0) <==> !CutShort(v, w)
    ensures (LessThan(v, w) <==> PaddedOrder(v.components, w.components) < 0) <==> !CutShort(v, w)
    ensures CutShort(v, w) ==> AtLeast(v, w) && PaddedOrder(v.components, w.components) == -1
  {
    hide Lex, PaddedOrder, CompareFields;
    GenericIsLex(v, w);
    PaddedValues(v, w);
    ComponentsAreLex(v.components, w.components);
    ComponentsDocumentedIff(v.components, w.components);
    if CutShort(v, w) {
      assert Fitted(w.components, |v.components|) == w.components[..|v.components|];
      LexZero(v.components, w.components[..|v.components|]);
    } else {
      assert CompareComponents(v.components, w.components, 0) == PaddedOrder(v.components, w.components);
    }
  }

  lemma {:induction false} LexTransitive(a: seq<nat>, b: seq<nat>, c: seq<nat>)
    requires |a| == |b| == |c| && Lex(a, b) <= 0 && Lex(b, c) <= 0
    ensures Lex(a, c) <= 0
    decreases |a|
  {
    if a != [] && a[0] == b[0] == c[0] { LexTransitive(a[1..], b[1..], c[1..]); }
  }

  lemma FittedToItself(s: seq<nat>)
    ensures Fitted(s, |s|) == s
  {
  }

  /** Generic versions of one number of components are totally ordered, and equal only if they are the same. */
  lemma GenericOrders(u: Version, v: Version, w: Version)
    requires !u.semver && !v.semver && !w.semver && |u.components| == |v.components| == |w.components|
    ensures Compare(u, v) == -Compare(v, u) && Compare(u, v) in {-1, 0, 1}
    ensures AtLeast(u, v) || AtLeast(v, u)
    ensures Compare(u, v) <= 0 && Compare(v, w) <= 0 ==> Compare(u, w) <= 0
    ensures Compare(u, v) == 0 <==> u.components == v.components
  {
    GenericIsLex(u, v);
    GenericIsLex(v, u);
    GenericIsLex(v, w);
    GenericIsLex(u, w);
    FittedToItself(u.components);
    FittedToItself(v.components);
    FittedToItself(w.components);
    hide Lex, Compare, Fitted;
    LexValues(u.components, v.components);
    LexZero(u.components, v.components);
    if Compare(u, v) <= 0 && Compare(v, w) <= 0 { LexTransitive(u.components, v.components, w.components); }
  }

  /** iptables 1.4.7 is older than 1.4.11, though not as text. */
  lemma OlderIptables()
    ensures var v, min := Version([1, 4, 7], false, "", ""), Version([1, 4, 11], false, "", "");
            LessThan(v, min) && !AtLeast(v, min) && AtLeast(min, v)
  {
    assert CompareComponents([1, 4, 7], [1, 4, 11], 2) == -1;
    assert CompareComponents([1, 4, 11], [1, 4, 7], 2) == 1;
  }
}
