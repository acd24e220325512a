/**
 The names of a pool's VMs (pkg/client/openstack/client.go): VMs are created under a generated name
 and found again by the beginning of their names.
 */
module PoolNames {
  /** Nova's name filter and the generator's argument: the kluster's and the pool's name with hyphens. */
  function Prefix(kluster: string, pool: string): (p: string)
    ensures EndsInHyphen(p)
  {
    kluster + "-" + pool + "-"
  }

  predicate EndsInHyphen(s: string) {
    s != "" && s[|s| - 1] == '-'
  }

  /** The random characters of a generated name are letters and digits. */
  type Suffix = s: string | |s| == 5 && '-' !in s witness "bbbbb"

  const MAX_BASE: nat := 58

  /** A generated name keeps this much of its base, so that it is no longer than 63 characters. */
  function Base(prefix: string): (b: string)
    ensures |b| <= MAX_BASE && b <= prefix
    ensures b == prefix <==> |prefix| <= MAX_BASE
  {
    if |prefix| > MAX_BASE then prefix[..MAX_BASE] else prefix
  }

  function GenerateName(prefix: string, suffix: Suffix): string {
    Base(prefix) + suffix
  }

  predicate Occurs(f: string, name: string) {
    exists i :: 0 <= i <= |name| - |f| && f <= name[i..]
  }

  /** Whether Nova lists a VM of this name: names that begin with the filter, perhaps also others that contain it. */
  predicate Matches(anywhere: bool, filter: string, name: string) {
    if anywhere then Occurs(filter, name) else filter <= name
  }

  /** A pool lists the VMs that another one creates. */
  predicate Sees(anywhere: bool, p: string, q: string) {
    Matches(anywhere, p, Base(q))
  }

  // ----- Matching ------------------------------------------------------------------------------------

  lemma MatchesItself(anywhere: bool, f: string)
    ensures Matches(anywhere, f, f)
  {
    assert f[0..] == f && f <= f[0..];
  }

  lemma MatchesTransitive(anywhere: bool, f: string, g: string, name: string)
    requires Matches(anywhere, f, g) && Matches(anywhere, g, name)
    ensures Matches(anywhere, f, name)
  {
    if anywhere {
      var i :| 0 <= i <= |g| - |f| && f <= g[i..];
      var j :| 0 <= j <= |name| - |g| && g <= name[j..];
      assert name[j..][i..] == name[i + j..];
      assert g[i..] <= name[j..][i..];
      assert f <= name[i + j..];
    }
  }

  lemma BeginningMatches(anywhere: bool, f: string, name: string)
    requires f <= name
    ensures Matches(anywhere, f, name)
  {
    assert name[0..] == name;
  }

  lemma MatchesLonger(anywhere: bool, f: string, name: string)
    requires Matches(anywhere, f, name)
    ensures |f| <= |name| && (|f| == |name| ==> f == name)
  {
    if anywhere {
      var i :| 0 <= i <= |name| - |f| && f <= name[i..];
      if |f| == |name| { assert name[0..] == name; }
    }
  }

  /** The random characters of a name decide nothing: a filter ends in a hyphen. */
  lemma SuffixDecidesNothing(anywhere: bool, f: string, base: string, suffix: Suffix)
    requires EndsInHyphen(f)
    ensures Matches(anywhere, f, base + suffix) <==> Matches(anywhere, f, base)
  {
    var name := base + suffix;
    assert base <= name;
    if Matches(anywhere, f, base) {
      BeginningMatches(anywhere, base, name);
      MatchesTransitive(anywhere, f, base, name);
    }
    if Matches(anywhere, f, name) {
      var i := 0;
      if anywhere {
        i :| 0 <= i <= |name| - |f| && f <= name[i..];
      } else {
        assert name[0..] == name;
      }
      var last := i + |f| - 1;
      assert name[last] == name[i..][|f| - 1] == f[|f| - 1] == '-';
      assert last < |base|;
      assert base[i..] == name[i..][..|base| - i];
      assert f <= base[i..];
      assert base[0..] == base;
    }
  }

  /** Listing the VM that a pool creates does not depend on its random characters. */
  lemma GeneratedMatches(anywhere: bool, p: string, q: string, suffix: Suffix)
    requires EndsInHyphen(p)
    ensures Matches(anywhere, p, GenerateName(q, suffix)) <==> Sees(anywhere, p, q)
  {
    SuffixDecidesNothing(anywhere, p, Base(q), suffix);
  }

  // ----- Which pools see which -----------------------------------------------------------------------

  /** A pool sees its own VMs exactly if its names are not cut off. */
  lemma SeesItselfIff(anywhere: bool, q: string)
    ensures Sees(anywhere, q, q) <==> |q| <= MAX_BASE
  {
    if Sees(anywhere, q, q) { MatchesLonger(anywhere, q, Base(q)); }
    if |q| <= MAX_BASE { MatchesItself(anywhere, q); }
  }

  /** Where names are not cut off and match at the beginning, a pool sees another's VMs if the other continues it. */
  lemma SeesIff(kluster: string, pool: string, kluster': string, pool': string)
    requires |Prefix(kluster', pool')| <= MAX_BASE
    ensures var id, id' := kluster + "-" + pool, kluster' + "-" + pool';
            Sees(false, Prefix(kluster, pool), Prefix(kluster', pool')) <==> id' == id || id + "-" <= id'
  {
    var id, id' := kluster + "-" + pool, kluster' + "-" + pool';
    assert Prefix(kluster, pool) == id + "-" && Prefix(kluster', pool') == id' + "-";
    if id + "-" <= id' + "-" {
      if |id| < |id'| {
        assert (id' + "-")[..|id| + 1] == id'[..|id| + 1];
      } else {
        assert (id + "-")[..|id|] == id && (id' + "-")[..|id|] == id;
      }
    }
    if id + "-" <= id' { assert id' <= id' + "-"; }
  }
}
