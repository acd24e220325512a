/**
 How one round brings the VMs of a pool closer to what the kluster wants, and how a fair cloud goes
 on with it: VMs only boot or vanish, and as long as some are starting or stopping one gets on.
 */
module Convergence {
  import opened Common
  import opened Klusters
  import opened PoolNames
  import opened NodePools

  predicate BootsOrBuilds(n: Node, m: Node) {
    m == Booted(n) || exists stage: Stage :: m == InStage(n, stage)
  }

  /** VMs get to other stages, boot or vanish, in place. */
  ghost predicate GetOn(a: seq<Node>, b: seq<Node>)
    decreases |a|
  {
    if a == [] then b == []
    else
      || (a[0].Stopping() && GetOn(a[1..], b))
      || (b != [] && (b[0] == a[0] || (a[0].Starting() && BootsOrBuilds(a[0], b[0]))) && GetOn(a[1..], b[1..]))
  }

  /** And if some are starting or stopping, at least one of them boots or vanishes. */
  ghost predicate Fair(a: seq<Node>, b: seq<Node>, keep: string -> bool) {
    GetOn(a, b) && (CountIn(a, keep).Pending() > 0 ==> CountIn(b, keep) != CountIn(a, keep))
  }

  ghost predicate Calm(calls: nat -> Call) {
    forall k: nat :: calls(k).ok && calls(k).drift == []
  }

  /** Nothing fails and no VM acts on its own during a round; the listing has any order. */
  ghost predicate CalmEnv(env: PoolEnv) {
    env.listed && env.saved && Permutes(env.order) && Calm(env.calls)
  }

  /** Ids are unique, and those to come are new. */
  ghost predicate Valid(c: Cloud) {
    && (forall i, j :: 0 <= i < j < |c.nodes| ==> c.nodes[i].id != c.nodes[j].id)
    && (forall n <- c.nodes :: n.id < c.nextID)
  }

  // ----- The measure ----------------------------------------------------------------------------------

  function Abs(x: int): nat { if x < 0 then -x else x }

  /** How far from the size, how many VMs in no useful state, how many on their way. */
  datatype Distance = Distance(off: nat, other: nat, pending: nat)

  /** From running exactly size many VMs, or from having none. */
  function Off(t: Tally, terminating: bool, size: int): Distance {
    if terminating then Distance(0, t.Active() + t.other, t.Pending())
    else Distance(Abs(t.Active() - size), t.other, t.Pending())
  }

  predicate Less(a: Distance, b: Distance) {
    a.off < b.off || (a.off == b.off && (a.other < b.other || (a.other == b.other && a.pending < b.pending)))
  }

  predicate AtMost(a: Distance, b: Distance) {
    a == b || Less(a, b)
  }

  predicate Done(d: Distance, terminating: bool) {
    d.off == 0 && d.pending == 0 && (terminating ==> d.other == 0)
  }

  lemma Descends(x: Distance, y: Distance, z: Distance)
    requires AtMost(x, y) && AtMost(y, z)
    ensures AtMost(x, z) && (Less(x, y) || Less(y, z) ==> Less(x, z)) && (x == z ==> x == y == z)
  {
  }

  lemma ReachedIff(listed: seq<Node>, terminating: bool, size: int)
    ensures Reached(listed, terminating, size) <==> Done(Off(Count(listed), terminating, size), terminating)
  {
    CountBound(listed);
    hide Count;
  }

  // ----- Calls that do not fail ---------------------------------------------------------------------------

  lemma CalmCreate(c: Cloud, prefix: string, call: Call, keep: string -> bool)
    requires call.ok && call.drift == [] && Valid(c)
    ensures var after := Create(c, prefix, call);
            && Valid(after) && after.anywhere == c.anywhere
            && CountIn(after.nodes, keep) ==
               Plus(CountIn(c.nodes, keep), Tally(0, if keep(GenerateName(prefix, call.suffix)) then 1 else 0, 0, 0))
  {
    var n := Created(c.nextID, prefix, call.suffix);
    CreatedLast(c, prefix, call);
    CreatedStarts(c.nextID, prefix, call.suffix);
    hide TallyOf, CountIn, Create, Created, Valid, GenerateName;
    CountInAppend(c.nodes, [n], keep);
    CountInOne(n, keep);
  }

  lemma CreatedLast(c: Cloud, prefix: string, call: Call)
    requires call.ok && call.drift == [] && Valid(c)
    ensures var after := Create(c, prefix, call);
            && Valid(after) && after.anywhere == c.anywhere
            && after.nodes == c.nodes + [Created(c.nextID, prefix, call.suffix)]
  {
    assert Drifted(c.nodes, []) == c.nodes;
    hide GenerateName;
  }

  lemma {:induction false} CalmCreateLoop(c: Cloud, prefix: string, calls: nat -> Call, i: nat, n: nat,
                                          keep: string -> bool, seen: bool)
    requires i <= n && Calm(calls) && Valid(c)
    requires forall s: Suffix :: keep(GenerateName(prefix, s)) == seen
    ensures var r := CreateLoop(c, prefix, calls, i, n);
            && r.1 == Fine && Valid(r.0) && r.0.anywhere == c.anywhere
            && CountIn(r.0.nodes, keep) == Plus(CountIn(c.nodes, keep), Tally(0, if seen then n - i else 0, 0, 0))
    decreases n - i
  {
    hide CountIn, Create, Valid;
    if i < n {
      CalmCreate(c, prefix, calls(i), keep);
      CalmCreateLoop(Create(c, prefix, calls(i)), prefix, calls, i + 1, n, keep, seen);
    }
  }

  lemma TheOnly(c: Cloud, n: Node)
    requires Valid(c) && n in c.nodes
    ensures Present(c.nodes, n.id) && c.nodes[Find(c.nodes, n.id)] == n
  {
  }

  /** A calm delete turns one VM into a stopping one or removes it. */
  lemma CalmDelete(c: Cloud, id: nat, call: Call, keep: string -> bool)
    requires call.ok && call.drift == [] && Present(c.nodes, id)
    ensures var n := c.nodes[Find(c.nodes, id)];
            var after := CountIn(Delete(c, id, call).nodes, keep);
            if keep(n.name) then
              Plus(after, TallyOf(n)) ==
              Plus(CountIn(c.nodes, keep), if call.atOnce then Tally(0, 0, 0, 0) else Tally(0, 0, 1, 0))
            else after == CountIn(c.nodes, keep)
  {
    var becomes := (n: Node) => if call.atOnce then [] else [Deleting(n)];
    assert Delete(c, id, call).nodes == Replace(c.nodes, id, becomes);
    var n := c.nodes[Find(c.nodes, id)];
    Transitions(n);
    SameName(n);
    CountOne(Deleting(n));
    CountNone();
    hide TallyOf, CountIn, Count, Present, Replace, Deleting, Delete;
    OneReplaced(c.nodes, id, becomes, becomes(n), keep);
  }

  lemma DeleteFine(c: Cloud, id: nat, call: Call)
    requires call.ok && call.drift == [] && Valid(c) && Present(c.nodes, id)
    ensures !DeleteFails(c, id, call)
    ensures Valid(Delete(c, id, call)) && Delete(c, id, call).anywhere == c.anywhere
  {
    var i := Find(c.nodes, id);
    var middle := if call.atOnce then [] else [Deleting(c.nodes[i])];
    assert Delete(c, id, call) == c.(nodes := c.nodes[..i] + middle + c.nodes[i + 1..]);
    hide Delete, Find, Present, Replace;
    AroundValid(c, i, middle);
  }

  /** A deletion leaves all other VMs alone. */
  lemma DeleteKeepsOthers(c: Cloud, id: nat, call: Call)
    requires call.ok && call.drift == [] && Present(c.nodes, id)
    ensures forall n <- c.nodes :: n.id != id ==> n in Delete(c, id, call).nodes
  {
    var i := Find(c.nodes, id);
    var middle := if call.atOnce then [] else [Deleting(c.nodes[i])];
    assert Delete(c, id, call).nodes == c.nodes[..i] + middle + c.nodes[i + 1..];
    hide Delete, Find, Present, Replace;
    AroundKept(c.nodes, i, middle);
  }

  predicate StemsFrom(nodes: seq<Node>, m: Node) {
    exists n <- nodes :: n.id == m.id && n.name == m.name
  }

  /** It brings no new ids or names. */
  lemma DeleteOnlyTakes(c: Cloud, id: nat, call: Call)
    requires call.ok && call.drift == [] && Present(c.nodes, id)
    ensures forall m <- Delete(c, id, call).nodes :: StemsFrom(c.nodes, m)
  {
    var i := Find(c.nodes, id);
    SameName(c.nodes[i]);
    var middle := if call.atOnce then [] else [Deleting(c.nodes[i])];
    assert Delete(c, id, call).nodes == c.nodes[..i] + middle + c.nodes[i + 1..];
    hide Delete, Find, Present, Deleting, Replace;
    AroundOnly(c.nodes, i, middle);
  }

  lemma AroundKept(nodes: seq<Node>, i: nat, middle: seq<Node>)
    requires i < |nodes|
    ensures forall n <- nodes :: n.id != nodes[i].id ==> n in nodes[..i] + middle + nodes[i + 1..]
  {
    var after := nodes[..i] + middle + nodes[i + 1..];
    forall n | n in nodes && n.id != nodes[i].id ensures n in after {
      var j :| 0 <= j < |nodes| && nodes[j] == n;
      if j < i { assert nodes[..i][j] == n; } else { assert nodes[i + 1..][j - i - 1] == n; }
    }
  }

  lemma AroundOnly(nodes: seq<Node>, i: nat, middle: seq<Node>)
    requires i < |nodes|
    requires middle == [] || (|middle| == 1 && middle[0].id == nodes[i].id && middle[0].name == nodes[i].name)
    ensures forall m <- nodes[..i] + middle + nodes[i + 1..] :: StemsFrom(nodes, m)
  {
    forall m | m in nodes[..i] + middle + nodes[i + 1..] ensures StemsFrom(nodes, m) {
      var n := if m in middle then nodes[i] else m;
      assert n in nodes && n.id == m.id && n.name == m.name;
    }
  }

  lemma AroundValid(c: Cloud, i: nat, middle: seq<Node>)
    requires Valid(c) && i < |c.nodes| && (middle == [] || (|middle| == 1 && middle[0].id == c.nodes[i].id))
    ensures Valid(c.(nodes := c.nodes[..i] + middle + c.nodes[i + 1..]))
  {
    var after := c.nodes[..i] + middle + c.nodes[i + 1..];
    var gap := 1 - |middle|;
    assert forall j :: 0 <= j < |after| ==> after[j].id == c.nodes[if j < i + |middle| then j else j + gap].id;
  }

  /**
   A deletion brings the VMs of a filter no further from their goal: the goal is to have none, or
   there are more of them than wanted.
   */
  lemma DeleteApproaches(c: Cloud, id: nat, call: Call, keep: string -> bool, terminating: bool, size: int)
    requires call.ok && call.drift == [] && Present(c.nodes, id)
    requires terminating || size == 0 || CountIn(c.nodes, keep).Active() > size
    ensures var before, after := CountIn(c.nodes, keep), CountIn(Delete(c, id, call).nodes, keep);
            var n := c.nodes[Find(c.nodes, id)];
            && AtMost(Off(after, terminating, size), Off(before, terminating, size))
            && after.Active() + 1 >= before.Active()
            && (keep(n.name) && !n.Stopping() ==> Less(Off(after, terminating, size), Off(before, terminating, size)))
            && (Off(after, terminating, 0) == Off(before, terminating, 0) ==>
                  !keep(n.name) || (n.Stopping() && !call.atOnce))
  {
    var n := c.nodes[Find(c.nodes, id)];
    CalmDelete(c, id, call, keep);
    Transitions(n);
    var before, after := CountIn(c.nodes, keep), CountIn(Delete(c, id, call).nodes, keep);
    hide TallyOf, CountIn, Present, Delete, Find;
    if keep(n.name) { Shrinks(before, after, n, call.atOnce, terminating, size); }
  }

  lemma Shrinks(before: Tally, after: Tally, n: Node, atOnce: bool, terminating: bool, size: int)
    requires Plus(after, TallyOf(n)) == Plus(before, if atOnce then Tally(0, 0, 0, 0) else Tally(0, 0, 1, 0))
    requires terminating || size == 0 || before.Active() > size
    ensures AtMost(Off(after, terminating, size), Off(before, terminating, size))
    ensures after.Active() + 1 >= before.Active()
    ensures !n.Stopping() ==> Less(Off(after, terminating, size), Off(before, terminating, size))
    ensures Off(after, terminating, 0) == Off(before, terminating, 0) ==> n.Stopping() && !atOnce
  {
    Transitions(n);
    hide TallyOf;
  }

  ghost predicate AllThere(c: Cloud, ids: seq<nat>, i: nat) {
    && (forall k :: i <= k < |ids| ==> Present(c.nodes, ids[k]))
    && (forall k, l :: i <= k < l < |ids| ==> ids[k] != ids[l])
  }

  lemma OthersStayThere(c: Cloud, ids: seq<nat>, call: Call, i: nat)
    requires call.ok && call.drift == [] && i < |ids| && AllThere(c, ids, i)
    ensures AllThere(Delete(c, ids[i], call), ids, i + 1)
  {
    hide Delete, Present;
    assert Present(c.nodes, ids[i]);
    DeleteKeepsOthers(c, ids[i], call);
    forall k | i + 1 <= k < |ids| ensures Present(Delete(c, ids[i], call).nodes, ids[k]) {
      assert Present(c.nodes, ids[k]);
      StillPresent(c.nodes, Delete(c, ids[i], call).nodes, ids[i], ids[k]);
    }
  }

  lemma StillPresent(before: seq<Node>, after: seq<Node>, id: nat, other: nat)
    requires other != id && Present(before, other) && forall n <- before :: n.id != id ==> n in after
    ensures Present(after, other)
  {
  }

  lemma {:induction false} CalmDeleteLoop(c: Cloud, ids: seq<nat>, calls: nat -> Call, i: nat, n: nat,
                                          keep: string -> bool, terminating: bool, size: int)
    requires i <= n <= |ids| && Calm(calls) && Valid(c) && AllThere(c, ids, i)
    requires terminating || size == 0 || CountIn(c.nodes, keep).Active() >= size + (n - i)
    ensures var r := DeleteLoop(c, ids, calls, i, n);
            var before, after := Off(CountIn(c.nodes, keep), terminating, size),
              Off(CountIn(r.0.nodes, keep), terminating, size);
            && r.1 == Fine && Valid(r.0) && r.0.anywhere == c.anywhere
            && AtMost(after, before)
            && (i < n && (var m := c.nodes[Find(c.nodes, ids[i])]; keep(m.name) && !m.Stopping()) ==>
              Less(after, before))
    decreases n - i
  {
    hide CountIn, Delete, Present, DeleteFails, Valid, Off, Less;
    if i < n {
      var next := Delete(c, ids[i], calls(i));
      DeleteFine(c, ids[i], calls(i));
      OthersStayThere(c, ids, calls(i), i);
      DeleteApproaches(c, ids[i], calls(i), keep, terminating, size);
      CalmDeleteLoop(next, ids, calls, i + 1, n, keep, terminating, size);
      Descends(Off(CountIn(DeleteLoop(c, ids, calls, i, n).0.nodes, keep), terminating, size),
               Off(CountIn(next.nodes, keep), terminating, size), Off(CountIn(c.nodes, keep), terminating, size));
    }
  }

  // ----- One round, for the pool itself -------------------------------------------------------------------

  /** The listing of a round: the VMs of the project with matching names, in some order. */
  function Listing(c: Cloud, spec: Spec, env: PoolEnv): seq<Node> {
    env.order(Listed(c, spec.Prefix()))
  }

  lemma {:induction false} SelectPart(nodes: seq<Node>, keep: string -> bool)
    ensures forall n :: n in Select(nodes, keep) <==> n in nodes && keep(n.name)
    decreases |nodes|
  {
    if nodes != [] {
      SelectPart(nodes[..|nodes| - 1], keep);
      assert nodes == nodes[..|nodes| - 1] + [nodes[|nodes| - 1]];
    }
  }

  lemma {:induction false} SelectUnique(nodes: seq<Node>, keep: string -> bool)
    requires forall i, j :: 0 <= i < j < |nodes| ==> nodes[i].id != nodes[j].id
    ensures forall n :: multiset(Select(nodes, keep))[n] <= 1
    decreases |nodes|
  {
    if nodes != [] {
      var front, n := nodes[..|nodes| - 1], nodes[|nodes| - 1];
      SelectUnique(front, keep);
      SelectPart(front, keep);
      assert n !in front;
    }
  }

  /** Everything listed is there, once, and has the pool's prefix. */
  lemma ListingThere(c: Cloud, spec: Spec, env: PoolEnv)
    requires Valid(c) && Permutes(env.order)
    ensures AllThere(c, NodeIDs(Listing(c, spec, env)), 0)
    ensures forall n <- Listing(c, spec, env) ::
              n in c.nodes && Keep(c.anywhere, spec.Prefix())(n.name) && c.nodes[Find(c.nodes, n.id)] == n
  {
    var keep, listed, listing := Keep(c.anywhere, spec.Prefix()), Listed(c, spec.Prefix()), Listing(c, spec, env);
    SelectPart(c.nodes, keep);
    SelectUnique(c.nodes, keep);
    hide Select, Find, Keep, Matches;
    forall n | n in listing
      ensures n in c.nodes && keep(n.name) && Present(c.nodes, n.id) && c.nodes[Find(c.nodes, n.id)] == n
    {
      assert n in multiset(listing) && n in multiset(listed);
      TheOnly(c, n);
    }
    AllDifferent(c, listing);
  }

  lemma AllDifferent(c: Cloud, listing: seq<Node>)
    requires Valid(c) && (forall n :: multiset(listing)[n] <= 1)
    requires forall n <- listing :: n in c.nodes
    ensures AllThere(c, NodeIDs(listing), 0)
  {
    hide Find;
    forall k | 0 <= k < |listing| ensures Present(c.nodes, NodeIDs(listing)[k]) {
      assert listing[k] in listing;
    }
    forall k, l | 0 <= k < l < |listing| ensures listing[k].id != listing[l].id {
      Twice(listing, k, l);
      assert listing[k] in listing && listing[l] in listing;
      TheOnly(c, listing[k]);
      TheOnly(c, listing[l]);
    }
  }

  lemma Twice<T>(s: seq<T>, k: nat, l: nat)
    requires k < l < |s|
    ensures s[k] == s[l] ==> multiset(s)[s[k]] >= 2
  {
    assert s == s[..l] + s[l..];
    assert s[k] in s[..l] && s[l] in s[l..];
  }

  /** A pool can see the VMs it creates, or will never create one. */
  predicate Watches(anywhere: bool, terminating: bool, spec: Spec) {
    terminating || spec.pool.size == 0 || (spec.pool.size > 0 && Sees(anywhere, spec.Prefix(), spec.Prefix()))
  }

  /** What a calm round comes down to. */
  lemma RoundIs(c: Cloud, terminating: bool, spec: Spec, env: PoolEnv)
    requires CalmEnv(env)
    ensures var r, listing, size := PoolRound(c, terminating, spec, env), Listing(c, spec, env), spec.pool.size;
            var t := Count(listing);
            (r.cloud, r.ending) ==
            if terminating then DeleteLoop(c, NodeIDs(listing), env.calls, 0, |listing|)
            else if Needed(t, size) > 0 then CreateLoop(c, spec.Prefix(), env.calls, 0, Needed(t, size))
            else if UnNeeded(t, size) > 0 then DeleteLoop(c, NodeIDs(listing), env.calls, 0, UnNeeded(t, size))
            else (c, Fine)
    ensures spec.pool.size >= 0 ==> UnNeeded(Count(Listing(c, spec, env)), spec.pool.size) <= |Listing(c, spec, env)|
  {
    CountBound(Listing(c, spec, env));
    hide Count, CreateLoop, DeleteLoop;
  }

  /** A calm round does not fail, and leaves a project with unique ids. */
  lemma RoundFine(c: Cloud, terminating: bool, spec: Spec, env: PoolEnv)
    requires CalmEnv(env) && Valid(c) && (terminating || spec.pool.size >= 0)
    ensures var r := PoolRound(c, terminating, spec, env);
            r.ending == Fine && Valid(r.cloud) && r.cloud.anywhere == c.anywhere
  {
    hide Count, Valid, AllThere, Listing, Select, CountIn, PoolRound, CreateLoop, DeleteLoop, Permutes, Calm, Off,
      AtMost, Less;
    var listing, none := Listing(c, spec, env), (name: string) => false;
    var t := Count(listing);
    ListingAllThere(c, spec, env);
    RoundIs(c, terminating, spec, env);
    if terminating {
      CalmDeleteLoop(c, NodeIDs(listing), env.calls, 0, |listing|, none, true, 0);
    } else if Needed(t, spec.pool.size) > 0 {
      CalmCreateLoop(c, spec.Prefix(), env.calls, 0, Needed(t, spec.pool.size), none, false);
    } else if UnNeeded(t, spec.pool.size) > 0 {
      CalmDeleteLoop(c, NodeIDs(listing), env.calls, 0, UnNeeded(t, spec.pool.size), none, false, 0);
    }
  }

  lemma ListingAllThere(c: Cloud, spec: Spec, env: PoolEnv)
    requires CalmEnv(env) && Valid(c)
    ensures AllThere(c, NodeIDs(Listing(c, spec, env)), 0)
  {
    hide Valid, AllThere, Listing, Permutes;
    ListingThere(c, spec, env);
  }

  /** No further away; and if the goal is not reached, closer or with something on its way. */
  predicate Nears(before: Tally, after: Tally, terminating: bool, size: int) {
    var d, e := Off(before, terminating, size), Off(after, terminating, size);
    AtMost(e, d) && (Done(d, terminating) || Less(e, d) || after.Pending() > 0)
  }

  lemma RoundNears(c: Cloud, terminating: bool, spec: Spec, env: PoolEnv)
    requires CalmEnv(env) && Valid(c) && Watches(c.anywhere, terminating, spec)
    ensures var keep := Keep(c.anywhere, spec.Prefix());
            Nears(CountIn(c.nodes, keep), CountIn(PoolRound(c, terminating, spec, env).cloud.nodes, keep),
                  terminating, spec.pool.size)
  {
    hide Count, Valid, AllThere, Listing, Select, CountIn, PoolRound, CreateLoop, DeleteLoop, Permutes, Calm, Off,
      AtMost, Less, Nears, Keep, Sees;
    var keep, listing, size := Keep(c.anywhere, spec.Prefix()), Listing(c, spec, env), spec.pool.size;
    var t := Count(listing);
    ListingTally(c, spec, env);
    RoundIs(c, terminating, spec, env);
    if terminating {
      if listing != [] {
        DeletingNears(c, true, spec, env, |listing|);
      } else {
        assert NodeIDs(listing) == [];
        LoopEnds(c, NodeIDs(listing), env.calls, 0);
        CountNone();
        NothingLeft(t, size);
      }
    } else if Needed(t, size) > 0 {
      SeesOwn(c.anywhere, spec);
      CalmCreateLoop(c, spec.Prefix(), env.calls, 0, Needed(t, size), keep, true);
      Creating(t, size);
    } else if UnNeeded(t, size) > 0 {
      DeletingNears(c, false, spec, env, UnNeeded(t, size));
    } else {
      Waiting(t, size);
    }
  }

  lemma ListingTally(c: Cloud, spec: Spec, env: PoolEnv)
    requires CalmEnv(env)
    ensures Count(Listing(c, spec, env)) == CountIn(c.nodes, Keep(c.anywhere, spec.Prefix()))
  {
    ListingCounts(c, spec, env);
    hide Count, Select;
  }

  lemma SeesOwn(anywhere: bool, spec: Spec)
    requires Sees(anywhere, spec.Prefix(), spec.Prefix())
    ensures forall s: Suffix :: Keep(anywhere, spec.Prefix())(GenerateName(spec.Prefix(), s))
  {
    forall s: Suffix ensures Keep(anywhere, spec.Prefix())(GenerateName(spec.Prefix(), s)) {
      GeneratedMatches(anywhere, spec.Prefix(), spec.Prefix(), s);
    }
  }

  lemma NothingLeft(t: Tally, size: int)
    requires t.running + t.starting + t.stopping + t.other == 0
    ensures Nears(t, t, true, size)
  {
    hide Abs, Less;
  }

  lemma Creating(t: Tally, size: int)
    requires Needed(t, size) > 0
    ensures Nears(t, Plus(t, Tally(0, Needed(t, size), 0, 0)), false, size)
  {
  }

  lemma Waiting(t: Tally, size: int)
    requires Needed(t, size) == 0 && UnNeeded(t, size) == 0
    ensures Nears(t, t, false, size)
  {
  }

  /** Deleting the first so many listed VMs: the first one is no further obstacle or on its way. */
  lemma DeletingNears(c: Cloud, terminating: bool, spec: Spec, env: PoolEnv, n: nat)
    requires CalmEnv(env) && Valid(c) && 0 < n <= |Listing(c, spec, env)|
    requires var t := Count(Listing(c, spec, env));
             && t == CountIn(c.nodes, Keep(c.anywhere, spec.Prefix()))
             && (terminating || t.Active() >= spec.pool.size + n)
    ensures var keep, ids := Keep(c.anywhere, spec.Prefix()), NodeIDs(Listing(c, spec, env));
            Nears(CountIn(c.nodes, keep), CountIn(DeleteLoop(c, ids, env.calls, 0, n).0.nodes, keep),
                  terminating, spec.pool.size)
  {
    hide Count, Listed, Select, CountIn, Valid, Keep, AllThere, Listing, DeleteLoop, Off, Less, AtMost, Nears, Permutes,
      Calm, Find;
    var keep, listing := Keep(c.anywhere, spec.Prefix()), Listing(c, spec, env);
    var ids := NodeIDs(listing);
    ListingThere(c, spec, env);
    var first := listing[0];
    assert first in listing && ids[0] == first.id;
    CalmDeleteLoop(c, ids, env.calls, 0, n, keep, terminating, spec.pool.size);
    if first.Stopping() { SomeStopping(listing); }
    Equally(CountIn(c.nodes, keep), CountIn(DeleteLoop(c, ids, env.calls, 0, n).0.nodes, keep), terminating,
            spec.pool.size);
  }

  lemma SomeStopping(nodes: seq<Node>)
    requires nodes != [] && nodes[0].Stopping()
    ensures Count(nodes).Pending() > 0
  {
    hide Count, TallyOf;
    CountAppend([nodes[0]], nodes[1..]);
    CountOne(nodes[0]);
    assert [nodes[0]] + nodes[1..] == nodes;
    Transitions(nodes[0]);
  }

  lemma Equally(before: Tally, after: Tally, terminating: bool, size: int)
    requires AtMost(Off(after, terminating, size), Off(before, terminating, size))
    requires before.Pending() > 0 || Less(Off(after, terminating, size), Off(before, terminating, size))
    ensures Nears(before, after, terminating, size)
  {
  }

  // ----- One round, for other VMs --------------------------------------------------------------------------

  /** A round of x adds none of the VMs that are kept in view. */
  ghost predicate AddsNone(terminating: bool, x: Spec, keep: string -> bool) {
    terminating || x.pool.size == 0 || forall s: Suffix :: !keep(GenerateName(x.Prefix(), s))
  }

  /** Then they only become fewer. */
  lemma RoundShrinks(c: Cloud, terminating: bool, x: Spec, env: PoolEnv, keep: string -> bool)
    requires CalmEnv(env) && Valid(c) && (terminating || x.pool.size >= 0) && AddsNone(terminating, x, keep)
    ensures AtMost(Off(CountIn(PoolRound(c, terminating, x, env).cloud.nodes, keep), terminating, 0),
                   Off(CountIn(c.nodes, keep), terminating, 0))
  {
    hide Count, Valid, AllThere, Listing, Select, CountIn, PoolRound, CreateLoop, DeleteLoop, Permutes, Calm, Off,
      Less;
    var listing := Listing(c, x, env);
    var t := Count(listing);
    ListingAllThere(c, x, env);
    RoundIs(c, terminating, x, env);
    if terminating {
      CalmDeleteLoop(c, NodeIDs(listing), env.calls, 0, |listing|, keep, true, 0);
    } else if Needed(t, x.pool.size) > 0 {
      CreatingElsewhere(c, x, env, keep, Needed(t, x.pool.size));
    } else if UnNeeded(t, x.pool.size) > 0 {
      CalmDeleteLoop(c, NodeIDs(listing), env.calls, 0, UnNeeded(t, x.pool.size), keep, false, 0);
    }
  }

  lemma CreatingElsewhere(c: Cloud, x: Spec, env: PoolEnv, keep: string -> bool, n: nat)
    requires CalmEnv(env) && Valid(c) && forall s: Suffix :: !keep(GenerateName(x.Prefix(), s))
    ensures CountIn(CreateLoop(c, x.Prefix(), env.calls, 0, n).0.nodes, keep) == CountIn(c.nodes, keep)
  {
    hide CountIn, Valid, CreateLoop;
    CalmCreateLoop(c, x.Prefix(), env.calls, 0, n, keep, false);
    PlusNothing(CountIn(c.nodes, keep));
  }

  /** All ids that are still to be deleted belong to VMs of a certain kind. */
  ghost predicate AllOf(c: Cloud, ids: seq<nat>, i: nat, kind: string -> bool) {
    forall n <- c.nodes, k :: i <= k < |ids| && n.id == ids[k] ==> kind(n.name)
  }

  /** A deletion that leaves the shared VMs as they are leaves those in view as they are. */
  lemma DeleteElsewhere(c: Cloud, id: nat, call: Call, keep: string -> bool, shared: string -> bool)
    requires call.ok && call.drift == [] && Present(c.nodes, id)
    requires var n := c.nodes[Find(c.nodes, id)]; keep(n.name) ==> shared(n.name)
    requires Off(CountIn(Delete(c, id, call).nodes, shared), false, 0) == Off(CountIn(c.nodes, shared), false, 0)
    ensures CountIn(Delete(c, id, call).nodes, keep) == CountIn(c.nodes, keep)
  {
    var n := c.nodes[Find(c.nodes, id)];
    DeleteApproaches(c, id, call, shared, false, 0);
    CalmDelete(c, id, call, keep);
    Transitions(n);
    hide CountIn, Delete, Present, Find, Off, TallyOf, AtMost, Less;
    if keep(n.name) { Cancel(CountIn(Delete(c, id, call).nodes, keep), CountIn(c.nodes, keep), TallyOf(n)); }
  }

  lemma Cancel(a: Tally, b: Tally, t: Tally)
    requires Plus(a, t) == Plus(b, t)
    ensures a == b
  {
  }

  /** Deletions i..n change nothing about the shared VMs. */
  ghost predicate Steady(c: Cloud, ids: seq<nat>, calls: nat -> Call, i: nat, n: nat, shared: string -> bool)
    requires i <= n
  {
    Off(CountIn(DeleteLoop(c, ids, calls, i, n).0.nodes, shared), false, 0) == Off(CountIn(c.nodes, shared), false, 0)
  }

  /** If a whole loop changes nothing about the shared VMs, neither its first call nor the rest does. */
  lemma SteadySteps(c: Cloud, ids: seq<nat>, calls: nat -> Call, i: nat, n: nat, shared: string -> bool)
    requires i < n <= |ids| && Calm(calls) && Valid(c) && AllThere(c, ids, i) && Steady(c, ids, calls, i, n, shared)
    ensures var next := Delete(c, ids[i], calls(i));
            && Off(CountIn(next.nodes, shared), false, 0) == Off(CountIn(c.nodes, shared), false, 0)
            && Steady(next, ids, calls, i + 1, n, shared)
            && DeleteLoop(c, ids, calls, i, n) == DeleteLoop(next, ids, calls, i + 1, n)
  {
    hide CountIn, Delete, DeleteFails, Valid, Off, AtMost, Less, Find, Present;
    var next := Delete(c, ids[i], calls(i));
    assert Present(c.nodes, ids[i]);
    DeleteApproaches(c, ids[i], calls(i), shared, false, 0);
    DeleteFine(c, ids[i], calls(i));
    OthersStayThere(c, ids, calls(i), i);
    CalmDeleteLoop(next, ids, calls, i + 1, n, shared, false, 0);
    Descends(Off(CountIn(DeleteLoop(next, ids, calls, i + 1, n).0.nodes, shared), false, 0),
             Off(CountIn(next.nodes, shared), false, 0), Off(CountIn(c.nodes, shared), false, 0));
  }

  lemma KindStays(c: Cloud, ids: seq<nat>, call: Call, i: nat, kind: string -> bool)
    requires call.ok && call.drift == [] && i < |ids| && Present(c.nodes, ids[i]) && AllOf(c, ids, i, kind)
    ensures AllOf(Delete(c, ids[i], call), ids, i + 1, kind)
  {
    DeleteOnlyTakes(c, ids[i], call);
    hide Delete, DeleteFails;
  }

  /** Whatever is of the kind and in view is shared. */
  ghost predicate Overlap(kind: string -> bool, keep: string -> bool, shared: string -> bool) {
    forall name: string :: kind(name) && keep(name) ==> shared(name)
  }

  lemma {:induction false} LoopElsewhere(c: Cloud, ids: seq<nat>, calls: nat -> Call, i: nat, n: nat,
                                         kind: string -> bool, keep: string -> bool, shared: string -> bool)
    requires i <= n <= |ids| && Calm(calls) && Valid(c) && AllThere(c, ids, i) && AllOf(c, ids, i, kind)
    requires Overlap(kind, keep, shared) && Steady(c, ids, calls, i, n, shared)
    ensures CountIn(DeleteLoop(c, ids, calls, i, n).0.nodes, keep) == CountIn(c.nodes, keep)
    decreases n - i
  {
    hide CountIn, Delete, DeleteFails, Valid, Off, AllThere, AllOf, Calm, Steady, Overlap, DeleteLoop, Present, Find;
    if i < n {
      var next := Delete(c, ids[i], calls(i));
      KindOf(c, ids, i, kind);
      CalmCall(calls, i);
      SteadySteps(c, ids, calls, i, n, shared);
      DeleteFine(c, ids[i], calls(i));
      OthersStayThere(c, ids, calls(i), i);
      KindStays(c, ids, calls(i), i, kind);
      KindShared(c.nodes[Find(c.nodes, ids[i])].name, kind, keep, shared);
      DeleteElsewhere(c, ids[i], calls(i), keep, shared);
      LoopElsewhere(next, ids, calls, i + 1, n, kind, keep, shared);
    } else {
      LoopEnds(c, ids, calls, n);
    }
  }

  lemma LoopEnds(c: Cloud, ids: seq<nat>, calls: nat -> Call, n: nat)
    ensures DeleteLoop(c, ids, calls, n, n) == (c, Fine)
  {
  }

  lemma KindShared(name: string, kind: string -> bool, keep: string -> bool, shared: string -> bool)
    requires Overlap(kind, keep, shared) && kind(name)
    ensures keep(name) ==> shared(name)
  {
  }

  lemma KindOf(c: Cloud, ids: seq<nat>, i: nat, kind: string -> bool)
    requires i < |ids| && AllThere(c, ids, i) && AllOf(c, ids, i, kind)
    ensures Present(c.nodes, ids[i]) && kind(c.nodes[Find(c.nodes, ids[i])].name)
  {
    assert c.nodes[Find(c.nodes, ids[i])] in c.nodes;
  }

  lemma CalmCall(calls: nat -> Call, i: nat)
    requires Calm(calls)
    ensures calls(i).ok && calls(i).drift == []
  {
  }

  /**
   A round of x leaves the VMs in view alone, if it adds none of them and leaves all those alone that
   are in view and listed for x.
   */
  lemma RoundElsewhere(c: Cloud, x: Spec, env: PoolEnv, keep: string -> bool, shared: string -> bool)
    requires CalmEnv(env) && Valid(c) && x.pool.size >= 0 && AddsNone(false, x, keep)
    requires Overlap(Keep(c.anywhere, x.Prefix()), keep, shared)
    requires Off(CountIn(PoolRound(c, false, x, env).cloud.nodes, shared), false, 0) ==
      Off(CountIn(c.nodes, shared), false, 0)
    ensures CountIn(PoolRound(c, false, x, env).cloud.nodes, keep) == CountIn(c.nodes, keep)
  {
    hide Count, Valid, AllThere, AllOf, Listing, Select, CountIn, PoolRound, CreateLoop, DeleteLoop, Permutes, Calm,
      Off, Less, Keep, Overlap;
    var listing, kind := Listing(c, x, env), Keep(c.anywhere, x.Prefix());
    var t := Count(listing);
    ListingAllThere(c, x, env);
    RoundIs(c, false, x, env);
    if Needed(t, x.pool.size) > 0 {
      CreatingElsewhere(c, x, env, keep, Needed(t, x.pool.size));
    } else if UnNeeded(t, x.pool.size) > 0 {
      ListingOfKind(c, x, env);
      LoopElsewhere(c, NodeIDs(listing), env.calls, 0, UnNeeded(t, x.pool.size), kind, keep, shared);
    }
  }

  lemma ListingOfKind(c: Cloud, x: Spec, env: PoolEnv)
    requires CalmEnv(env) && Valid(c)
    ensures AllOf(c, NodeIDs(Listing(c, x, env)), 0, Keep(c.anywhere, x.Prefix()))
  {
    hide Keep, Listing, AllOf, AllThere, Permutes, Valid, NodeIDs;
    ListingThere(c, x, env);
    OfKind(c, Listing(c, x, env), Keep(c.anywhere, x.Prefix()));
  }

  lemma OfKind(c: Cloud, listing: seq<Node>, kind: string -> bool)
    requires Valid(c) && forall n <- listing :: n in c.nodes && kind(n.name) && c.nodes[Find(c.nodes, n.id)] == n
    ensures AllOf(c, NodeIDs(listing), 0, kind)
  {
    forall n, k | n in c.nodes && 0 <= k < |listing| && n.id == NodeIDs(listing)[k] ensures kind(n.name) {
      assert listing[k] in listing;
      TheOnly(c, n);
    }
  }

  // ----- A fair cloud --------------------------------------------------------------------------------------

  lemma CountInCons(nodes: seq<Node>, keep: string -> bool)
    requires nodes != []
    ensures CountIn(nodes, keep) ==
            Plus(if keep(nodes[0].name) then TallyOf(nodes[0]) else Tally(0, 0, 0, 0), CountIn(nodes[1..], keep))
  {
    assert nodes == [nodes[0]] + nodes[1..];
    CountInAppend([nodes[0]], nodes[1..], keep);
    CountInOne(nodes[0], keep);
  }

  /** Getting on only turns starting into running and removes stopping VMs. */
  lemma {:induction false} GetOnTally(a: seq<Node>, b: seq<Node>, keep: string -> bool)
    requires GetOn(a, b)
    ensures var t, u := CountIn(a, keep), CountIn(b, keep);
            && u.Active() == t.Active() && u.other == t.other && u.starting <= t.starting && u.stopping <= t.stopping
    decreases |a|
  {
    hide TallyOf, CountIn, Select, Booted, InStage;
    if a != [] {
      Transitions(a[0]);
      SameName(a[0]);
      CountInCons(a, keep);
      if a[0].Stopping() && GetOn(a[1..], b) {
        GetOnTally(a[1..], b, keep);
      } else {
        CountInCons(b, keep);
        GetOnTally(a[1..], b[1..], keep);
      }
    }
  }

  lemma FairOff(a: seq<Node>, b: seq<Node>, keep: string -> bool, terminating: bool, size: int)
    requires GetOn(a, b)
    ensures AtMost(Off(CountIn(b, keep), terminating, size), Off(CountIn(a, keep), terminating, size))
    ensures Fair(a, b, keep) && CountIn(a, keep).Pending() > 0 ==>
              Less(Off(CountIn(b, keep), terminating, size), Off(CountIn(a, keep), terminating, size))
  {
    hide CountIn, Select, GetOn;
    GetOnTally(a, b, keep);
  }

  lemma {:induction false} GetOnIDs(a: seq<Node>, b: seq<Node>)
    requires GetOn(a, b) && forall i, j :: 0 <= i < j < |a| ==> a[i].id != a[j].id
    ensures forall i, j :: 0 <= i < j < |b| ==> b[i].id != b[j].id
    ensures forall m <- b :: exists n <- a :: n.id == m.id
    decreases |a|
  {
    if a != [] {
      if a[0].Stopping() && GetOn(a[1..], b) {
        GetOnIDs(a[1..], b);
      } else {
        GetOnIDs(a[1..], b[1..]);
        forall m | m in b ensures exists n <- a :: n.id == m.id {
          if m == b[0] { assert a[0] in a; } else { assert m in b[1..]; }
        }
        forall i, j | 0 <= i < j < |b| ensures b[i].id != b[j].id {
          if i == 0 { assert b[j] in b[1..]; } else { assert b[1..][i - 1] == b[i] && b[1..][j - 1] == b[j]; }
        }
      }
    }
  }

  lemma GetOnValid(c: Cloud, b: seq<Node>)
    requires Valid(c) && GetOn(c.nodes, b)
    ensures Valid(c.(nodes := b))
  {
    hide GetOn;
    GetOnIDs(c.nodes, b);
  }

  /** A round followed by a fair cloud brings every pool that is not where it should be strictly closer. */
  lemma RoundThenFair(c: Cloud, terminating: bool, spec: Spec, env: PoolEnv, after: seq<Node>)
    requires CalmEnv(env) && Valid(c) && Watches(c.anywhere, terminating, spec)
    requires Fair(PoolRound(c, terminating, spec, env).cloud.nodes, after, Keep(c.anywhere, spec.Prefix()))
    ensures var keep, size := Keep(c.anywhere, spec.Prefix()), spec.pool.size;
            var d, e := Off(CountIn(c.nodes, keep), terminating, size), Off(CountIn(after, keep), terminating, size);
            AtMost(e, d) && (Done(d, terminating) || Less(e, d))
  {
    var keep, size := Keep(c.anywhere, spec.Prefix()), spec.pool.size;
    hide CountIn, PoolRound, Off, Less, AtMost, CalmEnv, Valid, Watches, Keep, GetOn, Select;
    RoundNears(c, terminating, spec, env);
    NearsThenFair(CountIn(c.nodes, keep), PoolRound(c, terminating, spec, env).cloud.nodes, after, keep, terminating,
      size);
  }

  lemma NearsThenFair(t: Tally, a: seq<Node>, b: seq<Node>, keep: string -> bool, terminating: bool, size: int)
    requires Nears(t, CountIn(a, keep), terminating, size) && Fair(a, b, keep)
    ensures var d, e := Off(t, terminating, size), Off(CountIn(b, keep), terminating, size);
            AtMost(e, d) && (Done(d, terminating) || Less(e, d))
  {
    assert GetOn(a, b);
    hide CountIn, Off, Less, AtMost, GetOn, Select, Fair, Done;
    FairOff(a, b, keep, terminating, size);
    Descends(Off(CountIn(b, keep), terminating, size), Off(CountIn(a, keep), terminating, size),
      Off(t, terminating, size));
  }

  /** A pool that is where it should be is left alone, quietly. */
  lemma RoundQuiet(c: Cloud, terminating: bool, spec: Spec, env: PoolEnv)
    requires CalmEnv(env) && Reached(Listed(c, spec.Prefix()), terminating, spec.pool.size)
    ensures var r := PoolRound(c, terminating, spec, env); !r.requeue && r.ending == Fine && r.cloud == c
  {
    hide Count, Select, CreateLoop, DeleteLoop, Permutes, Calm;
    var listing := Listing(c, spec, env);
    ListingTally(c, spec, env);
    SameLength(c, spec, env);
    if terminating {
      assert NodeIDs(listing) == [];
      LoopEnds(c, NodeIDs(listing), env.calls, 0);
    }
  }

  lemma SameLength(c: Cloud, spec: Spec, env: PoolEnv)
    requires CalmEnv(env)
    ensures |Listing(c, spec, env)| == |Listed(c, spec.Prefix())|
  {
    ListingCounts(c, spec, env);
  }
}
