/**
 Convergence of whole reconciliations: all pools of the klusters of an OpenStack project, reconciled
 in turn, reach their sizes, or all of them are emptied, if the cloud is fair in between. Nova may
 list the VMs of a pool in any order, and whatever has the right name.
 */
module ReconcileConvergence {
  import opened Common
  import opened Klusters
  import opened PoolNames
  import opened NodePools
  import opened Convergence
  import opened LaunchController

  function Sweep(c: Cloud, terminating: bool, specs: seq<Spec>, env: nat -> PoolEnv): Outcome {
    Rounds(c, terminating, specs, env, 0)
  }

  ghost predicate CalmSweep(env: nat -> PoolEnv) {
    forall i: nat :: CalmEnv(env(i))
  }

  /** VMs get on, and of every pool that has some on their way at least one does. */
  ghost predicate FairTo(specs: seq<Spec>, before: Cloud, after: Cloud) {
    && after == before.(nodes := after.nodes)
    && GetOn(before.nodes, after.nodes)
    && forall p <- specs :: Fair(before.nodes, after.nodes, Keep(before.anywhere, p.Prefix()))
  }

  /** Reconciliations without errors, each followed by a fair cloud. */
  ghost predicate FairSweeps(run: nat -> Cloud, terminating: bool, specs: seq<Spec>, env: nat -> nat -> PoolEnv) {
    && Valid(run(0))
    && forall k: nat :: CalmSweep(env(k)) && FairTo(specs, Sweep(run(k), terminating, specs, env(k)).cloud, run(k + 1))
  }

  predicate AllReached(c: Cloud, terminating: bool, specs: seq<Spec>) {
    forall p <- specs :: Reached(Listed(c, p.Prefix()), terminating, p.pool.size)
  }

  predicate Sizes(terminating: bool, specs: seq<Spec>) {
    terminating ||
    ((forall p <- specs :: p.pool.size >= 0) &&
     (forall p <- specs, q <- specs :: p.Prefix() == q.Prefix() ==> p.pool.size == q.pool.size))
  }

  /** A VM that a pool creates is listed for that pool and for no other one. */
  predicate Separate(anywhere: bool, terminating: bool, specs: seq<Spec>) {
    terminating ||
    forall p <- specs, q <- specs :: q.pool.size > 0 ==>
      (Sees(anywhere, p.Prefix(), q.Prefix()) <==> p.Prefix() == q.Prefix())
  }

  function TallyIn(c: Cloud, p: Spec): Tally {
    CountIn(c.nodes, Keep(c.anywhere, p.Prefix()))
  }

  function OffOf(c: Cloud, terminating: bool, p: Spec): Distance {
    Off(TallyIn(c, p), terminating, p.pool.size)
  }

  // ----- Sweeps -----------------------------------------------------------------------------------------

  lemma {:induction false} SweepFine(c: Cloud, terminating: bool, specs: seq<Spec>, env: nat -> PoolEnv, i: nat)
    requires i <= |specs| && CalmSweep(env) && Valid(c) && Sizes(terminating, specs)
    ensures var o := Rounds(c, terminating, specs, env, i);
            o.ending == Fine && Valid(o.cloud) && o.cloud.anywhere == c.anywhere
    decreases |specs| - i
  {
    hide PoolRound, CalmEnv, Valid;
    if i < |specs| {
      assert CalmEnv(env(i)) && specs[i] in specs;
      RoundFine(c, terminating, specs[i], env(i));
      SweepFine(PoolRound(c, terminating, specs[i], env(i)).cloud, terminating, specs, env, i + 1);
    }
  }

  lemma ThenAtMost(t: Tally, u: Tally, v: Tally, terminating: bool, size: int)
    requires Nears(t, u, terminating, size) && AtMost(Off(v, terminating, size), Off(u, terminating, size))
    ensures Nears(t, v, terminating, size)
  {
  }

  lemma ThenNears(t: Tally, u: Tally, v: Tally, terminating: bool, size: int)
    requires AtMost(Off(u, terminating, size), Off(t, terminating, size)) && Nears(u, v, terminating, size)
    ensures Nears(t, v, terminating, size)
  {
  }

  predicate Shrinking(terminating: bool, p: Spec) {
    terminating || p.pool.size == 0
  }

  lemma OthersAddNone(anywhere: bool, terminating: bool, specs: seq<Spec>, p: Spec, x: Spec)
    requires Separate(anywhere, terminating, specs) && Sizes(terminating, specs) && p in specs && x in specs
    requires p.Prefix() != x.Prefix() || Shrinking(terminating, p)
    ensures AddsNone(terminating, x, Keep(anywhere, p.Prefix()))
  {
    if !terminating && x.pool.size != 0 {
      assert !Sees(anywhere, p.Prefix(), x.Prefix());
      forall s: Suffix ensures !Keep(anywhere, p.Prefix())(GenerateName(x.Prefix(), s)) {
        GeneratedMatches(anywhere, p.Prefix(), x.Prefix(), s);
      }
    }
  }

  /** A pool that wants no VMs: nobody's round adds any, and its own brings it closer. */
  lemma {:induction false} SweepShrinks(c: Cloud, terminating: bool, specs: seq<Spec>, env: nat -> PoolEnv, i: nat,
                                        p: Spec)
    requires i <= |specs| && CalmSweep(env) && Valid(c) && Sizes(terminating, specs)
    requires Separate(c.anywhere, terminating, specs) && p in specs && Shrinking(terminating, p)
    ensures var after := Rounds(c, terminating, specs, env, i).cloud;
            && AtMost(OffOf(after, terminating, p), OffOf(c, terminating, p))
            && (p in specs[i..] ==> Nears(TallyIn(c, p), TallyIn(after, p), terminating, p.pool.size))
    decreases |specs| - i
  {
    hide PoolRound, CalmEnv, Valid, Keep, CountIn, Off, Nears, AddsNone, Separate;
    if i < |specs| {
      var x, next := specs[i], PoolRound(c, terminating, specs[i], env(i)).cloud;
      assert CalmEnv(env(i)) && x in specs && specs[i..] == [x] + specs[i + 1..];
      RoundFine(c, terminating, x, env(i));
      OthersAddNone(c.anywhere, terminating, specs, p, x);
      RoundShrinks(c, terminating, x, env(i), Keep(c.anywhere, p.Prefix()));
      SizeIgnored(TallyIn(c, p), terminating, p);
      SizeIgnored(TallyIn(next, p), terminating, p);
      SweepShrinks(next, terminating, specs, env, i + 1, p);
      var after := Rounds(c, terminating, specs, env, i).cloud;
      assert after == Rounds(next, terminating, specs, env, i + 1).cloud;
      Descends(OffOf(after, terminating, p), OffOf(next, terminating, p), OffOf(c, terminating, p));
      if x == p {
        assert Watches(c.anywhere, terminating, x);
        RoundNears(c, terminating, x, env(i));
        ThenAtMost(TallyIn(c, p), TallyIn(next, p), TallyIn(after, p), terminating, p.pool.size);
      } else if p in specs[i + 1..] {
        ThenNears(TallyIn(c, p), TallyIn(next, p), TallyIn(after, p), terminating, p.pool.size);
      }
    }
  }

  lemma SizeIgnored(t: Tally, terminating: bool, p: Spec)
    requires Shrinking(terminating, p)
    ensures Off(t, terminating, p.pool.size) == Off(t, terminating, 0)
  {
  }

  /** VMs that are not listed for exactly one pool that wants some. */
  function Shared(anywhere: bool, specs: seq<Spec>): string -> bool {
    (name: string) => !exists q <- specs ::
      q.pool.size > 0 && forall x <- specs :: Matches(anywhere, x.Prefix(), name) <==> x.Prefix() == q.Prefix()
  }

  function OffShared(c: Cloud, specs: seq<Spec>): Distance {
    Off(CountIn(c.nodes, Shared(c.anywhere, specs)), false, 0)
  }

  lemma NobodyAddsShared(anywhere: bool, specs: seq<Spec>, x: Spec)
    requires Separate(anywhere, false, specs) && Sizes(false, specs) && x in specs
    ensures AddsNone(false, x, Shared(anywhere, specs))
  {
    if x.pool.size != 0 {
      forall s: Suffix ensures !Shared(anywhere, specs)(GenerateName(x.Prefix(), s)) {
        forall y | y in specs
          ensures Matches(anywhere, y.Prefix(), GenerateName(x.Prefix(), s)) <==> y.Prefix() == x.Prefix()
        {
          GeneratedMatches(anywhere, y.Prefix(), x.Prefix(), s);
          assert Sees(anywhere, y.Prefix(), x.Prefix()) <==> y.Prefix() == x.Prefix();
        }
      }
    }
  }

  lemma {:induction false} SharedShrinks(c: Cloud, specs: seq<Spec>, env: nat -> PoolEnv, i: nat)
    requires i <= |specs| && CalmSweep(env) && Valid(c) && Sizes(false, specs) && Separate(c.anywhere, false, specs)
    ensures AtMost(OffShared(Rounds(c, false, specs, env, i).cloud, specs), OffShared(c, specs))
    decreases |specs| - i
  {
    hide PoolRound, CalmEnv, Valid, Shared, CountIn, Off, AddsNone, Separate, Less;
    if i < |specs| {
      var next := PoolRound(c, false, specs[i], env(i)).cloud;
      assert CalmEnv(env(i)) && specs[i] in specs;
      RoundFine(c, false, specs[i], env(i));
      NobodyAddsShared(c.anywhere, specs, specs[i]);
      RoundShrinks(c, false, specs[i], env(i), Shared(c.anywhere, specs));
      SharedShrinks(next, specs, env, i + 1);
      var after := Rounds(c, false, specs, env, i).cloud;
      assert after == Rounds(next, false, specs, env, i + 1).cloud;
      Descends(OffShared(after, specs), OffShared(next, specs), OffShared(c, specs));
    }
  }

  lemma BothShared(anywhere: bool, specs: seq<Spec>, p: Spec, x: Spec)
    requires p in specs && x in specs && p.Prefix() != x.Prefix()
    ensures Overlap(Keep(anywhere, x.Prefix()), Keep(anywhere, p.Prefix()), Shared(anywhere, specs))
  {
  }

  /** Once the shared VMs are as they stay, a pool that wants VMs is moved by its own rounds only, and closer. */
  lemma {:induction false} SweepGrows(c: Cloud, specs: seq<Spec>, env: nat -> PoolEnv, i: nat, p: Spec)
    requires i <= |specs| && CalmSweep(env) && Valid(c) && Sizes(false, specs) && Separate(c.anywhere, false, specs)
    requires p in specs && p.pool.size > 0
    requires OffShared(Rounds(c, false, specs, env, i).cloud, specs) == OffShared(c, specs)
    ensures var after := Rounds(c, false, specs, env, i).cloud;
            && AtMost(OffOf(after, false, p), OffOf(c, false, p))
            && (p in specs[i..] ==> Nears(TallyIn(c, p), TallyIn(after, p), false, p.pool.size))
    decreases |specs| - i
  {
    hide PoolRound, CalmEnv, Valid, Keep, CountIn, Off, Nears, AddsNone, Separate, Less, Shared, Overlap;
    if i < |specs| {
      var x, next := specs[i], PoolRound(c, false, specs[i], env(i)).cloud;
      assert CalmEnv(env(i)) && x in specs && specs[i..] == [x] + specs[i + 1..];
      RoundFine(c, false, x, env(i));
      NobodyAddsShared(c.anywhere, specs, x);
      RoundShrinks(c, false, x, env(i), Shared(c.anywhere, specs));
      SharedShrinks(next, specs, env, i + 1);
      var after := Rounds(c, false, specs, env, i).cloud;
      assert after == Rounds(next, false, specs, env, i + 1).cloud;
      Descends(OffShared(after, specs), OffShared(next, specs), OffShared(c, specs));
      SweepGrows(next, specs, env, i + 1, p);
      if x.Prefix() == p.Prefix() {
        assert x.pool.size == p.pool.size;
        assert Watches(c.anywhere, false, x) by { SeesSelf(c.anywhere, specs, x); }
        RoundNears(c, false, x, env(i));
        NearsAtMost(TallyIn(c, p), TallyIn(next, p), p.pool.size);
        Descends(OffOf(after, false, p), OffOf(next, false, p), OffOf(c, false, p));
        ThenAtMost(TallyIn(c, p), TallyIn(next, p), TallyIn(after, p), false, p.pool.size);
      } else {
        OthersAddNone(c.anywhere, false, specs, p, x);
        BothShared(c.anywhere, specs, p, x);
        RoundElsewhere(c, x, env(i), Keep(c.anywhere, p.Prefix()), Shared(c.anywhere, specs));
      }
    }
  }

  lemma SeesSelf(anywhere: bool, specs: seq<Spec>, x: Spec)
    requires Separate(anywhere, false, specs) && x in specs && x.pool.size > 0
    ensures Sees(anywhere, x.Prefix(), x.Prefix())
  {
  }

  lemma NearsAtMost(t: Tally, u: Tally, size: int)
    requires Nears(t, u, false, size)
    ensures AtMost(Off(u, false, size), Off(t, false, size))
  {
  }

  // ----- Falling distances ---------------------------------------------------------------------------------

  ghost predicate Falls(d: nat -> Distance, from: nat) {
    forall k: nat :: k >= from ==> AtMost(d(k + 1), d(k))
  }

  lemma {:induction false} Fallen(d: nat -> Distance, from: nat, k: nat)
    requires Falls(d, from) && k >= from
    ensures AtMost(d(k), d(from))
    decreases k
  {
    hide AtMost, Less, Falls;
    if k > from {
      Fallen(d, from, k - 1);
      assert AtMost(d(k), d(k - 1)) by { FallsAt(d, from, k - 1); }
      Descends(d(k), d(k - 1), d(from));
    } else {
      SameAtMost(d(k));
    }
  }

  lemma FallsAt(d: nat -> Distance, from: nat, k: nat)
    requires Falls(d, from) && k >= from
    ensures AtMost(d(k + 1), d(k))
  {
  }

  lemma SameAtMost(x: Distance)
    ensures AtMost(x, x)
  {
  }

  /** A falling distance stays the same from some point on. */
  lemma {:induction false} Stabilises(d: nat -> Distance, from: nat) returns (n: nat)
    requires Falls(d, from)
    ensures n >= from && forall k: nat :: k >= n ==> d(k + 1) == d(k)
    decreases d(from).off, d(from).other, d(from).pending
  {
    if forall k: nat :: k >= from ==> d(k + 1) == d(k) {
      n := from;
    } else {
      var k: nat :| k >= from && d(k + 1) != d(k);
      Fallen(d, from, k);
      FallsAt(d, from, k);
      assert Falls(d, k + 1);
      n := Stabilises(d, k + 1);
    }
  }

  // ----- Runs ------------------------------------------------------------------------------------------------

  lemma {:induction false} RunValid(run: nat -> Cloud, terminating: bool, specs: seq<Spec>, env: nat -> nat -> PoolEnv,
                                    k: nat)
    requires FairSweeps(run, terminating, specs, env) && Sizes(terminating, specs)
    ensures Valid(run(k)) && run(k).anywhere == run(0).anywhere
    decreases k
  {
    hide Valid, CalmSweep, Rounds, GetOn, Fair, Sizes;
    if k > 0 {
      RunValid(run, terminating, specs, env, k - 1);
      assert CalmSweep(env(k - 1));
      var o := Sweep(run(k - 1), terminating, specs, env(k - 1)).cloud;
      assert FairTo(specs, o, run(k - 1 + 1));
      SweepFine(run(k - 1), terminating, specs, env(k - 1), 0);
      GetOnValid(o, run(k).nodes);
    }
  }

  lemma StepOf(run: nat -> Cloud, terminating: bool, specs: seq<Spec>, env: nat -> nat -> PoolEnv, k: nat)
    requires FairSweeps(run, terminating, specs, env)
    ensures CalmSweep(env(k)) && FairTo(specs, Sweep(run(k), terminating, specs, env(k)).cloud, run(k + 1))
  {
  }

  /** What a sweep and a fair cloud do to a pool that wants no VMs. */
  lemma ShrinkStep(run: nat -> Cloud, terminating: bool, specs: seq<Spec>, env: nat -> nat -> PoolEnv, p: Spec, k: nat)
    requires FairSweeps(run, terminating, specs, env) && Sizes(terminating, specs)
    requires Separate(run(0).anywhere, terminating, specs) && p in specs && Shrinking(terminating, p)
    ensures var d, e := OffOf(run(k), terminating, p), OffOf(run(k + 1), terminating, p);
            AtMost(e, d) && (Done(d, terminating) || Less(e, d))
  {
    hide FairSweeps, Valid, CalmSweep, Rounds, GetOn, Fair, Sizes, Separate, Shrinking, CountIn, Off, AtMost, Less,
      Done, Keep, Nears;
    RunValid(run, terminating, specs, env, k);
    StepOf(run, terminating, specs, env, k);
    var o := Sweep(run(k), terminating, specs, env(k)).cloud;
    SweepFine(run(k), terminating, specs, env(k), 0);
    SweepShrinks(run(k), terminating, specs, env(k), 0, p);
    assert specs[0..] == specs;
    NearsThenFair(TallyIn(run(k), p), o.nodes, run(k + 1).nodes, Keep(o.anywhere, p.Prefix()), terminating,
      p.pool.size);
  }

  /** The shared VMs only become fewer; where they stay the same, so they do during the sweep. */
  lemma SharedStep(run: nat -> Cloud, specs: seq<Spec>, env: nat -> nat -> PoolEnv, k: nat)
    requires FairSweeps(run, false, specs, env) && Sizes(false, specs) && Separate(run(0).anywhere, false, specs)
    ensures AtMost(OffShared(run(k + 1), specs), OffShared(run(k), specs))
    ensures OffShared(run(k + 1), specs) == OffShared(run(k), specs) ==>
              OffShared(Sweep(run(k), false, specs, env(k)).cloud, specs) == OffShared(run(k), specs)
  {
    hide FairSweeps, Valid, CalmSweep, Rounds, GetOn, Fair, Sizes, Separate, CountIn, Off, AtMost, Less, Shared;
    RunValid(run, false, specs, env, k);
    StepOf(run, false, specs, env, k);
    var o := Sweep(run(k), false, specs, env(k)).cloud;
    SweepFine(run(k), false, specs, env(k), 0);
    SharedShrinks(run(k), specs, env(k), 0);
    FairOff(o.nodes, run(k + 1).nodes, Shared(o.anywhere, specs), false, 0);
    Descends(OffShared(run(k + 1), specs), OffShared(o, specs), OffShared(run(k), specs));
  }

  lemma GrowStep(run: nat -> Cloud, specs: seq<Spec>, env: nat -> nat -> PoolEnv, p: Spec, k: nat)
    requires FairSweeps(run, false, specs, env) && Sizes(false, specs) && Separate(run(0).anywhere, false, specs)
    requires p in specs && p.pool.size > 0 && OffShared(run(k + 1), specs) == OffShared(run(k), specs)
    ensures var d, e := OffOf(run(k), false, p), OffOf(run(k + 1), false, p);
            AtMost(e, d) && (Done(d, false) || Less(e, d))
  {
    hide FairSweeps, Valid, CalmSweep, Rounds, GetOn, Fair, Sizes, Separate, CountIn, Off, AtMost, Less, Done, Keep,
      Nears, Shared;
    RunValid(run, false, specs, env, k);
    StepOf(run, false, specs, env, k);
    var o := Sweep(run(k), false, specs, env(k)).cloud;
    SweepFine(run(k), false, specs, env(k), 0);
    SharedStep(run, specs, env, k);
    SweepGrows(run(k), specs, env(k), 0, p);
    assert specs[0..] == specs;
    NearsThenFair(TallyIn(run(k), p), o.nodes, run(k + 1).nodes, Keep(o.anywhere, p.Prefix()), false, p.pool.size);
  }

  /** Every pool gets where it should be, and stays there. */
  lemma PoolReaches(run: nat -> Cloud, terminating: bool, specs: seq<Spec>, env: nat -> nat -> PoolEnv, p: Spec)
    returns (n: nat)
    requires FairSweeps(run, terminating, specs, env) && Sizes(terminating, specs)
    requires Separate(run(0).anywhere, terminating, specs) && p in specs
    ensures forall k: nat :: k >= n ==> Reached(Listed(run(k), p.Prefix()), terminating, p.pool.size)
  {
    hide FairSweeps, Valid, Rounds, Separate, CountIn, Off, Less, Done, Keep, Shared, Reached, Select;
    var from: nat := 0;
    var d := (k: nat) => OffOf(run(k), terminating, p);
    if Shrinking(terminating, p) {
      forall k: nat ensures AtMost(d(k + 1), d(k)) { ShrinkStep(run, terminating, specs, env, p, k); }
    } else {
      var e := (k: nat) => OffShared(run(k), specs);
      forall k: nat ensures AtMost(e(k + 1), e(k)) { SharedStep(run, specs, env, k); }
      from := Stabilises(e, 0);
      forall k: nat | k >= from ensures AtMost(d(k + 1), d(k)) {
        assert e(k + 1) == e(k);
        GrowStep(run, specs, env, p, k);
      }
    }
    n := Stabilises(d, from);
    forall k: nat | k >= n ensures Reached(Listed(run(k), p.Prefix()), terminating, p.pool.size) {
      assert d(k + 1) == d(k);
      if Shrinking(terminating, p) {
        ShrinkStep(run, terminating, specs, env, p, k);
      } else {
        var e := (k: nat) => OffShared(run(k), specs);
        assert e(k + 1) == e(k);
        GrowStep(run, specs, env, p, k);
      }
      NotLess(d(k));
      ReachedIff(Listed(run(k), p.Prefix()), terminating, p.pool.size);
      assert TallyIn(run(k), p) == Count(Listed(run(k), p.Prefix())) by { ListedTally(run(k), p); }
    }
  }

  lemma NotLess(x: Distance)
    ensures !Less(x, x)
  {
  }

  lemma ListedTally(c: Cloud, p: Spec)
    ensures TallyIn(c, p) == Count(Listed(c, p.Prefix()))
  {
  }

  lemma {:induction false} PoolsReach(run: nat -> Cloud, terminating: bool, specs: seq<Spec>,
                                      env: nat -> nat -> PoolEnv, m: nat)
    returns (n: nat)
    requires FairSweeps(run, terminating, specs, env) && Sizes(terminating, specs)
    requires Separate(run(0).anywhere, terminating, specs) && m <= |specs|
    ensures forall k: nat :: k >= n ==> AllReached(run(k), terminating, specs[..m])
    decreases m
  {
    hide FairSweeps, Valid, Separate, Reached, Select, Sizes;
    n := 0;
    if m > 0 {
      var before := PoolsReach(run, terminating, specs, env, m - 1);
      var own := PoolReaches(run, terminating, specs, env, specs[m - 1]);
      n := if before < own then own else before;
      assert specs[..m] == specs[..m - 1] + [specs[m - 1]];
    }
  }

  // ----- Fair runs exist ---------------------------------------------------------------------------------------

  /** A cloud in which everything that is on its way arrives. */
  function Arrived(nodes: seq<Node>): seq<Node> {
    if nodes == [] then []
    else if nodes[0].Stopping() then Arrived(nodes[1..])
    else [if nodes[0].Starting() then Booted(nodes[0]) else nodes[0]] + Arrived(nodes[1..])
  }

  lemma {:induction false} ArrivedGetsOn(nodes: seq<Node>)
    ensures GetOn(nodes, Arrived(nodes))
    decreases |nodes|
  {
    if nodes != [] {
      ArrivedGetsOn(nodes[1..]);
      if !nodes[0].Stopping() { assert Arrived(nodes)[1..] == Arrived(nodes[1..]); }
    }
  }

  lemma {:induction false} ArrivedCount(nodes: seq<Node>, keep: string -> bool)
    ensures CountIn(Arrived(nodes), keep).Pending() == 0
    decreases |nodes|
  {
    hide CountIn, TallyOf, Booted;
    if nodes == [] {
      CountInNone(keep);
    } else {
      ArrivedCount(nodes[1..], keep);
      Transitions(nodes[0]);
      if !nodes[0].Stopping() {
        var n := Arrived(nodes)[0];
        Transitions(n);
        CountInCons(Arrived(nodes), keep);
        assert Arrived(nodes)[1..] == Arrived(nodes[1..]);
      }
    }
  }

  lemma ArrivedIsFair(nodes: seq<Node>, keep: string -> bool)
    ensures Fair(nodes, Arrived(nodes), keep)
  {
    hide CountIn, GetOn, Arrived, Select;
    ArrivedGetsOn(nodes);
    ArrivedCount(nodes, keep);
  }

  function ArrivingRun(c: Cloud, terminating: bool, specs: seq<Spec>, env: nat -> PoolEnv, k: nat): Cloud {
    if k == 0 then c
    else
      var o := Sweep(ArrivingRun(c, terminating, specs, env, k - 1), terminating, specs, env).cloud;
      o.(nodes := Arrived(o.nodes))
  }

  /** From every cloud, for every list of pools and every calm environment. */
  lemma FairSweepsExist(c: Cloud, terminating: bool, specs: seq<Spec>, env: nat -> PoolEnv)
    returns (run: nat -> Cloud, envs: nat -> nat -> PoolEnv)
    requires Valid(c) && CalmSweep(env)
    ensures FairSweeps(run, terminating, specs, envs)
    ensures forall k: nat :: run(k) == ArrivingRun(c, terminating, specs, env, k)
  {
    hide Rounds, Fair, Arrived, Valid, CalmSweep, GetOn;
    run := (k: nat) => ArrivingRun(c, terminating, specs, env, k);
    envs := (k: nat) => env;
    forall k: nat ensures FairTo(specs, Sweep(run(k), terminating, specs, envs(k)).cloud, run(k + 1)) {
      var o := Sweep(run(k), terminating, specs, env).cloud;
      ArrivedGetsOn(o.nodes);
      forall p <- specs ensures Fair(o.nodes, Arrived(o.nodes), Keep(o.anywhere, p.Prefix())) {
        ArrivedIsFair(o.nodes, Keep(o.anywhere, p.Prefix()));
      }
    }
  }

  /** A calm environment with a given order of listings. */
  function CalmWith(order: seq<Node> -> seq<Node>): nat -> PoolEnv {
    (i: nat) => PoolEnv(true, order, (k: nat) => Call([], true, true, true, "bbbbb"), true)
  }

  // ----- A pool that does not see its own VMs -------------------------------------------------------------------

  lemma {:induction false} NothingComes(c: Cloud, specs: seq<Spec>, env: nat -> PoolEnv, i: nat, q: Spec)
    requires i <= |specs| && CalmSweep(env) && Valid(c) && Sizes(false, specs)
    requires q in specs && !Sees(c.anywhere, q.Prefix(), q.Prefix())
    requires Off(TallyIn(c, q), false, 0) == Distance(0, 0, 0)
    ensures Off(TallyIn(Rounds(c, false, specs, env, i).cloud, q), false, 0) == Distance(0, 0, 0)
    decreases |specs| - i
  {
    hide PoolRound, CalmEnv, Valid, Keep, CountIn, Off, AddsNone;
    if i < |specs| {
      assert CalmEnv(env(i)) && specs[i] in specs;
      RoundFine(c, false, specs[i], env(i));
      BlindToAll(c.anywhere, q, specs[i]);
      RoundShrinks(c, false, specs[i], env(i), Keep(c.anywhere, q.Prefix()));
      NothingComes(PoolRound(c, false, specs[i], env(i)).cloud, specs, env, i + 1, q);
    }
  }

  lemma BlindToAll(anywhere: bool, q: Spec, x: Spec)
    requires !Sees(anywhere, q.Prefix(), q.Prefix())
    ensures AddsNone(false, x, Keep(anywhere, q.Prefix()))
  {
    SeesItselfIff(anywhere, q.Prefix());
    forall s: Suffix ensures !Keep(anywhere, q.Prefix())(GenerateName(x.Prefix(), s)) {
      GeneratedMatches(anywhere, q.Prefix(), x.Prefix(), s);
      if Sees(anywhere, q.Prefix(), x.Prefix()) { MatchesLonger(anywhere, q.Prefix(), Base(x.Prefix())); }
    }
  }

  lemma {:induction false} BlindRun(run: nat -> Cloud, specs: seq<Spec>, envs: nat -> nat -> PoolEnv, k: nat, q: Spec)
    requires FairSweeps(run, false, specs, envs) && Sizes(false, specs) && run(0).nodes == []
    requires q in specs && q.pool.size > 0 && !Sees(run(0).anywhere, q.Prefix(), q.Prefix())
    ensures Off(TallyIn(run(k), q), false, 0) == Distance(0, 0, 0)
    decreases k
  {
    hide FairSweeps, Valid, CalmSweep, Rounds, GetOn, Fair, CountIn, Keep, Sees;
    if k == 0 {
      CountInNone(Keep(run(0).anywhere, q.Prefix()));
    } else {
      BlindRun(run, specs, envs, k - 1, q);
      RunValid(run, false, specs, envs, k - 1);
      StepOf(run, false, specs, envs, k - 1);
      var o := Sweep(run(k - 1), false, specs, envs(k - 1)).cloud;
      SweepFine(run(k - 1), false, specs, envs(k - 1), 0);
      NothingComes(run(k - 1), specs, envs(k - 1), 0, q);
      FairOff(o.nodes, run(k).nodes, Keep(o.anywhere, q.Prefix()), false, 0);
    }
  }

  // ----- A pool that sees another one's VMs ---------------------------------------------------------------------

  function Named(name: string): string -> bool {
    (other: string) => other == name
  }

  function NotNamed(name: string): string -> bool {
    (other: string) => other != name
  }

  function Nobody(): string -> bool {
    (name: string) => false
  }

  /** Nova lists the VMs of one name last. */
  function Last(name: string): seq<Node> -> seq<Node> {
    (nodes: seq<Node>) => Select(nodes, NotNamed(name)) + Select(nodes, Named(name))
  }

  lemma {:induction false} LastPermutes(nodes: seq<Node>, name: string)
    ensures multiset(Last(name)(nodes)) == multiset(nodes)
    decreases |nodes|
  {
    if nodes != [] {
      LastPermutes(nodes[..|nodes| - 1], name);
      assert nodes == nodes[..|nodes| - 1] + [nodes[|nodes| - 1]];
    }
  }

  lemma {:induction false} CountNobody(nodes: seq<Node>)
    ensures CountIn(nodes, Nobody()) == Tally(0, 0, 0, 0)
    decreases |nodes|
  {
    if nodes != [] { CountNobody(nodes[..|nodes| - 1]); }
  }

  /** Parts that do not overlap count separately. */
  lemma {:induction false} PartsCount(nodes: seq<Node>, whole: string -> bool, a: string -> bool, b: string -> bool)
    requires forall name :: (a(name) ==> whole(name) && !b(name)) && (b(name) ==> whole(name))
    ensures CountIn(nodes, whole).running >= CountIn(nodes, a).running + CountIn(nodes, b).running
    ensures CountIn(nodes, whole).Active() >= CountIn(nodes, a).Active() + CountIn(nodes, b).Active()
    decreases |nodes|
  {
    hide CountIn, TallyOf;
    if nodes == [] {
      CountInNone(whole);
      CountInNone(a);
      CountInNone(b);
    } else {
      PartsCount(nodes[1..], whole, a, b);
      CountInCons(nodes, whole);
      CountInCons(nodes, a);
      CountInCons(nodes, b);
    }
  }

  /** The pool's own VMs are the only ones that nobody else lists; as many run as it wants. */
  ghost predicate Guarded(c: Cloud, p: Spec, name: string) {
    Valid(c) && p.pool.size >= 0 && CountIn(c.nodes, Named(name)) == Tally(p.pool.size, 0, 0, 0)
  }

  /** p sees the VMs of q; and p's own have a name that only p lists. */
  ghost predicate Greedy(anywhere: bool, specs: seq<Spec>, p: Spec, name: string) {
    && p in specs && Matches(anywhere, p.Prefix(), name)
    && forall x <- specs :: x.Prefix() != p.Prefix() ==>
         !Matches(anywhere, x.Prefix(), name) && AddsNone(false, x, Named(name))
  }

  lemma RoundOfOthers(c: Cloud, specs: seq<Spec>, p: Spec, x: Spec, name: string, env: PoolEnv)
    requires CalmEnv(env) && Guarded(c, p, name) && Greedy(c.anywhere, specs, p, name) && Sizes(false, specs)
    requires x in specs && x.Prefix() != p.Prefix()
    ensures Guarded(PoolRound(c, false, x, env).cloud, p, name)
  {
    hide PoolRound, CalmEnv, Valid, CountIn, AddsNone, Off, Named, Nobody, Matches;
    RoundFine(c, false, x, env);
    CountNobody(c.nodes);
    CountNobody(PoolRound(c, false, x, env).cloud.nodes);
    NoOverlapWith(c.anywhere, x, name);
    RoundElsewhere(c, x, env, Named(name), Nobody());
  }

  lemma NoOverlapWith(anywhere: bool, x: Spec, name: string)
    requires !Matches(anywhere, x.Prefix(), name)
    ensures Overlap(Keep(anywhere, x.Prefix()), Named(name), Nobody())
  {
  }

  lemma {:induction false} LoopOfFirst(c: Cloud, ids: seq<nat>, calls: nat -> Call, i: nat, n: nat)
    requires i <= n <= |ids|
    ensures DeleteLoop(c, ids, calls, i, n) == DeleteLoop(c, ids[..n], calls, i, n)
    decreases n - i
  {
    hide Delete, DeleteFails;
    if i < n { LoopOfFirst(Delete(c, ids[i], calls(i)), ids, calls, i + 1, n); }
  }

  /** p itself only deletes VMs of other names, as they come first and are all it has too many. */
  lemma OwnRound(c: Cloud, p: Spec, x: Spec, name: string)
    requires Guarded(c, p, name) && Matches(c.anywhere, p.Prefix(), name)
    requires x.Prefix() == p.Prefix() && x.pool.size == p.pool.size >= 0
    ensures Guarded(PoolRound(c, false, x, CalmWith(Last(name))(0)).cloud, p, name)
  {
    var env := CalmWith(Last(name))(0);
    CalmLast(name);
    hide PoolRound, CalmEnv, Valid, CountIn, Off, Named, NotNamed, Nobody, Matches, Count, Listing, DeleteLoop,
      CreateLoop, AllThere, AllOf, Overlap, Select, Last, Permutes;
    var listing, ids := Listing(c, x, env), NodeIDs(Listing(c, x, env));
    var t := Count(listing);
    var u := UnNeeded(t, x.pool.size);
    RoundFine(c, false, x, env);
    RoundIs(c, false, x, env);
    var others := OthersFirst(c, x, name);
    assert Needed(t, x.pool.size) == 0 && u <= others;
    if u > 0 {
      ListingAllThere(c, x, env);
      FirstOnes(c, x, name, others, u);
      LoopOfFirst(c, ids, env.calls, 0, u);
      CountNobody(c.nodes);
      CountNobody(DeleteLoop(c, ids[..u], env.calls, 0, u).0.nodes);
      NamedOrNot(name);
      LoopElsewhere(c, ids[..u], env.calls, 0, u, NotNamed(name), Named(name), Nobody());
    }
  }

  lemma CalmLast(name: string)
    ensures CalmEnv(CalmWith(Last(name))(0)) && CalmSweep(CalmWith(Last(name)))
  {
    hide Last;
    forall nodes ensures multiset(Last(name)(nodes)) == multiset(nodes) { LastPermutes(nodes, name); }
  }

  lemma NamedOrNot(name: string)
    ensures Overlap(NotNamed(name), Named(name), Nobody())
  {
  }

  /** The listing begins with the VMs of other names, and among these are all it has too many. */
  lemma OthersFirst(c: Cloud, x: Spec, name: string) returns (others: nat)
    requires Matches(c.anywhere, x.Prefix(), name)
    requires x.pool.size >= 0 && CountIn(c.nodes, Named(name)) == Tally(x.pool.size, 0, 0, 0)
    ensures var env := CalmWith(Last(name))(0);
            var listing := Listing(c, x, env);
            && others <= |listing|
            && (forall i :: 0 <= i < others ==> listing[i].name != name)
            && x.pool.size <= Count(listing).Active() <= x.pool.size + others
  {
    var listed := Listed(c, x.Prefix());
    var a, b := Select(listed, NotNamed(name)), Select(listed, Named(name));
    others := |a|;
    assert Listing(c, x, CalmWith(Last(name))(0)) == a + b;
    SelectPart(listed, NotNamed(name));
    forall i | 0 <= i < |a| ensures a[i].name != name { assert a[i] in a; }
    NamedListed(c.nodes, Keep(c.anywhere, x.Prefix()), name);
    hide Select, Count, Named, NotNamed, Last, Keep;
    CountAppend(a, b);
    CountBound(a);
  }

  lemma {:induction false} NamedListed(nodes: seq<Node>, keep: string -> bool, name: string)
    requires keep(name)
    ensures Select(Select(nodes, keep), Named(name)) == Select(nodes, Named(name))
    decreases |nodes|
  {
    if nodes != [] {
      var front, n := nodes[..|nodes| - 1], nodes[|nodes| - 1];
      NamedListed(front, keep, name);
      SelectOne(n, Named(name));
      if keep(n.name) {
        SelectAppend(Select(front, keep), [n], Named(name));
      } else {
        assert Select(nodes, keep) == Select(front, keep);
        assert Select(nodes, Named(name)) == Select(front, Named(name));
      }
    }
  }

  lemma FirstOnes(c: Cloud, x: Spec, name: string, others: nat, u: nat)
    requires Valid(c) && u <= others
    requires var listing := Listing(c, x, CalmWith(Last(name))(0));
             others <= |listing| && forall i :: 0 <= i < others ==> listing[i].name != name
    ensures var ids := NodeIDs(Listing(c, x, CalmWith(Last(name))(0)))[..u];
            AllOf(c, ids, 0, NotNamed(name)) && AllThere(c, ids, 0)
  {
    var env := CalmWith(Last(name))(0);
    CalmLast(name);
    hide Listing, Valid, CalmEnv, Last, Keep;
    var listing := Listing(c, x, env);
    ListingAllThere(c, x, env);
    ListingIn(c, x, env);
    forall n, k | n in c.nodes && 0 <= k < u && n.id == NodeIDs(listing)[k] ensures n.name != name {
      assert listing[k] in listing;
      TheOnly(c, n);
    }
  }

  lemma ListingIn(c: Cloud, x: Spec, env: PoolEnv)
    requires Valid(c) && CalmEnv(env)
    ensures forall n <- Listing(c, x, env) :: n in c.nodes && c.nodes[Find(c.nodes, n.id)] == n
  {
    hide Keep, Listing, AllThere, Permutes, Valid;
    ListingThere(c, x, env);
  }

  lemma {:induction false} SweepGuards(c: Cloud, specs: seq<Spec>, p: Spec, name: string, i: nat)
    requires i <= |specs| && Guarded(c, p, name) && Greedy(c.anywhere, specs, p, name) && Sizes(false, specs)
    ensures var o := Rounds(c, false, specs, CalmWith(Last(name)), i).cloud;
            Guarded(o, p, name) && o.anywhere == c.anywhere
    decreases |specs| - i
  {
    hide PoolRound, CalmEnv, Valid, CountIn, AddsNone, Named, Matches, Last;
    if i < |specs| {
      var x, env := specs[i], CalmWith(Last(name));
      assert x in specs && env(i) == env(0);
      CalmLast(name);
      RoundFine(c, false, x, env(i));
      if x.Prefix() == p.Prefix() { OwnRound(c, p, x, name); } else { RoundOfOthers(c, specs, p, x, name, env(i)); }
      SweepGuards(PoolRound(c, false, x, env(i)).cloud, specs, p, name, i + 1);
    }
  }

  lemma {:induction false} RunGuards(c: Cloud, specs: seq<Spec>, p: Spec, name: string, k: nat)
    requires Guarded(c, p, name) && Greedy(c.anywhere, specs, p, name) && Sizes(false, specs)
    ensures var r := ArrivingRun(c, false, specs, CalmWith(Last(name)), k);
            Guarded(r, p, name) && r.anywhere == c.anywhere
    decreases k
  {
    hide Rounds, Valid, CountIn, Named, Greedy, Sizes, Arrived, Last, GetOn;
    if k > 0 {
      RunGuards(c, specs, p, name, k - 1);
      var o := Sweep(ArrivingRun(c, false, specs, CalmWith(Last(name)), k - 1), false, specs,
        CalmWith(Last(name))).cloud;
      SweepGuards(ArrivingRun(c, false, specs, CalmWith(Last(name)), k - 1), specs, p, name, 0);
      ArrivedGetsOn(o.nodes);
      GetOnValid(o, Arrived(o.nodes));
      GetOnTally(o.nodes, Arrived(o.nodes), Named(name));
    }
  }

  /** While p has as many own VMs as it wants, it and q cannot both be where they should be. */
  lemma NeverBoth(c: Cloud, specs: seq<Spec>, p: Spec, q: Spec, name: string)
    requires Guarded(c, p, name) && Greedy(c.anywhere, specs, p, name) && q in specs && q.pool.size > 0
    requires p.Prefix() != q.Prefix() && Sees(c.anywhere, p.Prefix(), q.Prefix())
    ensures !AllReached(c, false, specs)
  {
    var whole, a, b := Keep(c.anywhere, p.Prefix()), Named(name), Keep(c.anywhere, q.Prefix());
    forall n: string ensures (a(n) ==> whole(n) && !b(n)) && (b(n) ==> whole(n)) {
      if b(n) {
        BeginningMatches(c.anywhere, Base(q.Prefix()), q.Prefix());
        MatchesTransitive(c.anywhere, p.Prefix(), Base(q.Prefix()), q.Prefix());
        MatchesTransitive(c.anywhere, p.Prefix(), q.Prefix(), n);
      }
    }
    PartsCount(c.nodes, whole, a, b);
    hide CountIn, Named, Keep, Valid, Matches, AddsNone;
    if AllReached(c, false, specs) {
      ListedTally(c, p);
      ListedTally(c, q);
      assert false;
    }
  }

  /** Among the pools that see the VMs of q, one with the shortest prefix. */
  lemma {:induction false} Shortest(anywhere: bool, specs: seq<Spec>, q: Spec, p: Spec) returns (r: Spec)
    requires p in specs && p.Prefix() != q.Prefix() && Sees(anywhere, p.Prefix(), q.Prefix())
    ensures r in specs && r.Prefix() != q.Prefix() && Sees(anywhere, r.Prefix(), q.Prefix())
    ensures forall x <- specs :: x.Prefix() != q.Prefix() && Sees(anywhere, x.Prefix(), q.Prefix()) ==>
              |r.Prefix()| <= |x.Prefix()|
    decreases |p.Prefix()|
  {
    if exists x <- specs ::
      x.Prefix() != q.Prefix() && Sees(anywhere, x.Prefix(), q.Prefix()) && |x.Prefix()| < |p.Prefix()|
    {
      var x :| x in specs && x.Prefix() != q.Prefix() && Sees(anywhere, x.Prefix(), q.Prefix()) &&
        |x.Prefix()| < |p.Prefix()|;
      r := Shortest(anywhere, specs, q, x);
    } else {
      r := p;
    }
  }

  lemma ShortestIsGreedy(anywhere: bool, specs: seq<Spec>, p: Spec, q: Spec)
    requires Sizes(false, specs) && p in specs && p.Prefix() != q.Prefix() && Sees(anywhere, p.Prefix(), q.Prefix())
    requires forall x <- specs :: x.Prefix() != q.Prefix() && Sees(anywhere, x.Prefix(), q.Prefix()) ==>
               |p.Prefix()| <= |x.Prefix()|
    requires forall x <- specs :: x.pool.size > 0 ==> Sees(anywhere, x.Prefix(), x.Prefix())
    ensures Greedy(anywhere, specs, p, p.Prefix() + "bbbbb")
  {
    var name := p.Prefix() + "bbbbb";
    MatchesItself(anywhere, p.Prefix());
    SuffixDecidesNothing(anywhere, p.Prefix(), p.Prefix(), "bbbbb");
    MatchesLonger(anywhere, p.Prefix(), Base(q.Prefix()));
    forall x | x in specs && x.Prefix() != p.Prefix()
      ensures !Matches(anywhere, x.Prefix(), name) && AddsNone(false, x, Named(name))
    {
      SuffixDecidesNothing(anywhere, x.Prefix(), p.Prefix(), "bbbbb");
      if Matches(anywhere, x.Prefix(), p.Prefix()) {
        MatchesLonger(anywhere, x.Prefix(), p.Prefix());
        MatchesTransitive(anywhere, x.Prefix(), p.Prefix(), Base(q.Prefix()));
        assert false;
      }
      if x.pool.size > 0 {
        SeesItselfIff(anywhere, x.Prefix());
        OtherName(x.Prefix(), p.Prefix());
      }
    }
  }

  lemma OtherName(x: string, p: string)
    requires x != p && |x| <= MAX_BASE
    ensures forall s: Suffix :: GenerateName(x, s) != p + "bbbbb"
  {
    forall s: Suffix ensures GenerateName(x, s) != p + "bbbbb" {
      assert (x + s)[..|x|] == x && (p + "bbbbb")[..|p|] == p;
    }
  }

  function Copies(name: string, m: nat): seq<Node> {
    seq(m, i requires 0 <= i < m => Node(i, name, "", "active", 1))
  }

  lemma {:induction false} CopiesCount(name: string, m: nat)
    ensures CountIn(Copies(name, m), Named(name)) == Tally(m, 0, 0, 0)
    decreases m
  {
    hide CountIn;
    if m == 0 {
      CountInNone(Named(name));
    } else {
      var n := Node(m - 1, name, "", "active", 1);
      assert Copies(name, m) == Copies(name, m - 1) + [n];
      CopiesCount(name, m - 1);
      CountInAppend(Copies(name, m - 1), [n], Named(name));
      CountInOne(n, Named(name));
    }
  }

  // ----- The results ----------------------------------------------------------------------------------------------

  ghost predicate AlwaysSettles(anywhere: bool, specs: seq<Spec>) {
    forall run: nat -> Cloud, env: nat -> nat -> PoolEnv ::
      FairSweeps(run, false, specs, env) && run(0).anywhere == anywhere ==> Settles(run, specs)
  }

  ghost predicate Settles(run: nat -> Cloud, specs: seq<Spec>) {
    exists n: nat :: AllReached(run(n), false, specs) && forall k: nat :: k >= n ==> AllReached(run(k), false, specs)
  }

  /** A run in which some pool is never where it should be. */
  lemma Unsettled(anywhere: bool, specs: seq<Spec>) returns (run: nat -> Cloud, env: nat -> nat -> PoolEnv)
    requires !(Sizes(false, specs) && Separate(anywhere, false, specs))
    ensures FairSweeps(run, false, specs, env) && run(0).anywhere == anywhere
    ensures forall k: nat :: !AllReached(run(k), false, specs)
  {
    hide CountIn, Valid, FairSweeps, CalmSweep, Last, Rounds, Matches, Select, Off, Greedy;
    var empty := Cloud([], 0, anywhere);
    assert Valid(empty) by { EmptyValid(anywhere); }
    CalmLast("");
    if !Sizes(false, specs) {
      run, env := FairSweepsExist(empty, false, specs, CalmWith(Last("")));
      forall k: nat ensures !AllReached(run(k), false, specs) { WrongSizes(run(k), specs); }
    } else if exists q <- specs :: q.pool.size > 0 && !Sees(anywhere, q.Prefix(), q.Prefix()) {
      var q :| q in specs && q.pool.size > 0 && !Sees(anywhere, q.Prefix(), q.Prefix());
      run, env := FairSweepsExist(empty, false, specs, CalmWith(Last("")));
      assert run(0) == empty;
      forall k: nat ensures !AllReached(run(k), false, specs) {
        BlindRun(run, specs, env, k, q);
        NoneRunning(run(k), specs, q);
      }
    } else {
      var p', q := SomeOverlap(anywhere, specs);
      var p := Shortest(anywhere, specs, q, p');
      var name := p.Prefix() + "bbbbb";
      ShortestIsGreedy(anywhere, specs, p, q);
      var c := Cloud(Copies(name, p.pool.size), p.pool.size, anywhere);
      CopiesCount(name, p.pool.size);
      assert Valid(c) by { CopiesValid(anywhere, name, p.pool.size); }
      CalmLast(name);
      run, env := FairSweepsExist(c, false, specs, CalmWith(Last(name)));
      assert run(0) == c;
      forall k: nat ensures !AllReached(run(k), false, specs) {
        RunGuards(c, specs, p, name, k);
        NeverBoth(run(k), specs, p, q, name);
      }
    }
  }

  lemma EmptyValid(anywhere: bool)
    ensures Valid(Cloud([], 0, anywhere))
  {
  }

  lemma CopiesValid(anywhere: bool, name: string, m: nat)
    ensures Valid(Cloud(Copies(name, m), m, anywhere))
  {
  }

  lemma WrongSizes(c: Cloud, specs: seq<Spec>)
    requires !Sizes(false, specs)
    ensures !AllReached(c, false, specs)
  {
    hide Select, Count;
  }

  lemma NoneRunning(c: Cloud, specs: seq<Spec>, q: Spec)
    requires q in specs && q.pool.size > 0 && Off(TallyIn(c, q), false, 0) == Distance(0, 0, 0)
    ensures !AllReached(c, false, specs)
  {
    ListedTally(c, q);
    hide CountIn, Select, Count;
  }

  lemma SomeOverlap(anywhere: bool, specs: seq<Spec>) returns (p: Spec, q: Spec)
    requires !Separate(anywhere, false, specs)
    requires forall x <- specs :: x.pool.size > 0 ==> Sees(anywhere, x.Prefix(), x.Prefix())
    ensures p in specs && q in specs && q.pool.size > 0
    ensures p.Prefix() != q.Prefix() && Sees(anywhere, p.Prefix(), q.Prefix())
  {
    hide Sees;
    p, q :| p in specs && q in specs && q.pool.size > 0 &&
      !(Sees(anywhere, p.Prefix(), q.Prefix()) <==> p.Prefix() == q.Prefix());
  }

  /**
   All pools of the running klusters of a project reach their sizes for good in every run, in whatever
   order Nova lists, exactly if no size is negative, pools of one prefix have one size, and every VM
   that a pool creates is listed for that pool and for no other one.
   */
  lemma AllPoolsSettleIff(anywhere: bool, specs: seq<Spec>)
    ensures AlwaysSettles(anywhere, specs) <==> Sizes(false, specs) && Separate(anywhere, false, specs)
  {
    hide FairSweeps, AllReached, Sizes, Separate;
    if Sizes(false, specs) && Separate(anywhere, false, specs) {
      forall run: nat -> Cloud, env: nat -> nat -> PoolEnv |
        FairSweeps(run, false, specs, env) && run(0).anywhere == anywhere
        ensures Settles(run, specs)
      {
        var n := PoolsReach(run, false, specs, env, |specs|);
        assert specs[..|specs|] == specs;
        assert AllReached(run(n), false, specs);
      }
    } else {
      var run, env := Unsettled(anywhere, specs);
      assert !Settles(run, specs);
    }
  }

  /** All pools of terminating klusters are emptied for good, in every run, whatever their names and sizes. */
  lemma AllPoolsEmpty(run: nat -> Cloud, specs: seq<Spec>, env: nat -> nat -> PoolEnv) returns (n: nat)
    requires FairSweeps(run, true, specs, env)
    ensures forall k: nat, p :: k >= n && p in specs ==> Listed(run(k), p.Prefix()) == []
  {
    hide FairSweeps, Select;
    n := PoolsReach(run, true, specs, env, |specs|);
    assert specs[..|specs|] == specs;
    forall k: nat, p | k >= n && p in specs ensures Listed(run(k), p.Prefix()) == [] {
      assert AllReached(run(k), true, specs);
    }
  }

  /** Once every pool is where it should be, reconciliations are quiet and change nothing. */
  lemma {:induction false} SettledStays(c: Cloud, terminating: bool, specs: seq<Spec>, env: nat -> PoolEnv, i: nat)
    requires i <= |specs| && CalmSweep(env) && AllReached(c, terminating, specs)
    ensures var o := Rounds(c, terminating, specs, env, i); o.cloud == c && !o.requeue && o.ending == Fine
    decreases |specs| - i
  {
    hide PoolRound, CalmEnv, Select, Count;
    if i < |specs| {
      assert CalmEnv(env(i)) && specs[i] in specs;
      RoundQuiet(c, terminating, specs[i], env(i));
      SettledStays(c, terminating, specs, env, i + 1);
    }
  }

  // ----- Names that separate, and names that do not -----------------------------------------------------------------

  predicate NoHyphen(s: string) {
    '-' !in s
  }

  /** Pool names without hyphens, as the API's schema wants them, short enough, and one size per name. */
  predicate Proper(kluster: string, pools: seq<NodePool>) {
    && (forall p <- pools :: NoHyphen(p.name) && p.size >= 0)
    && (forall p <- pools :: p.size > 0 ==> |Prefix(kluster, p.name)| <= MAX_BASE)
    && (forall p <- pools, q <- pools :: p.name == q.name ==> p.size == q.size)
  }

  /** A kluster with such pools that has its project for itself settles. */
  lemma ProperPoolsSettle(kluster: string, pools: seq<NodePool>)
    requires Proper(kluster, pools)
    ensures AlwaysSettles(false, SpecsOf(kluster, pools))
  {
    var specs := SpecsOf(kluster, pools);
    hide Sees, Prefix, AlwaysSettles;
    forall p, q | p in specs && q in specs
      ensures p.Prefix() == q.Prefix() ==> p.pool.size == q.pool.size
      ensures q.pool.size > 0 ==> (Sees(false, p.Prefix(), q.Prefix()) <==> p.Prefix() == q.Prefix())
    {
      assert p.pool in pools && q.pool in pools && p.kluster == q.kluster == kluster;
      SamePrefix(kluster, p.pool.name, q.pool.name);
      if q.pool.size > 0 {
        HyphensSeparate(kluster, p.pool.name, q.pool.name);
      }
    }
    AllPoolsSettleIff(false, specs);
  }

  lemma SamePrefix(kluster: string, p: string, q: string)
    ensures Prefix(kluster, p) == Prefix(kluster, q) ==> p == q
  {
    var a := kluster + "-";
    assert Prefix(kluster, p) == a + p + "-" && Prefix(kluster, q) == a + q + "-";
    assert (a + p + "-")[|a|..|a| + |p|] == p && (a + q + "-")[|a|..|a| + |q|] == q;
  }

  lemma HyphensSeparate(kluster: string, p: string, q: string)
    requires NoHyphen(q) && |Prefix(kluster, q)| <= MAX_BASE
    ensures Sees(false, Prefix(kluster, p), Prefix(kluster, q)) <==> Prefix(kluster, p) == Prefix(kluster, q)
  {
    var a := kluster + "-";
    SeesIff(kluster, p, kluster, q);
    SeesItselfIff(false, Prefix(kluster, q));
    if a + p + "-" <= a + q {
      HyphenInside(a, p, q);
      assert false;
    }
    if a + p == a + q { assert (a + p)[|a|..] == p && (a + q)[|a|..] == q; }
  }

  lemma HyphenInside(a: string, p: string, q: string)
    requires a + p + "-" <= a + q
    ensures '-' in q
  {
    assert (a + q)[|a| + |p|] == '-' && (a + q)[|a| + |p|] == q[|p|];
  }

  /** Two pools of which one sees the VMs of the other, which wants some, never settle for sure. */
  lemma OverlapUnsettles(anywhere: bool, specs: seq<Spec>, p: Spec, q: Spec)
    requires p in specs && q in specs && q.pool.size > 0
    requires p.Prefix() != q.Prefix() && Sees(anywhere, p.Prefix(), q.Prefix())
    ensures !AlwaysSettles(anywhere, specs)
  {
    AllPoolsSettleIff(anywhere, specs);
  }

  /** Pool "a-b" within one kluster, although its name differs and no size is negative. */
  lemma PoolNamesCollide(kluster: string, a: NodePool, b: NodePool)
    requires a.name == "a" && a.size == 0 && b.name == "a-b" && b.size == 1 && |Prefix(kluster, "a-b")| <= MAX_BASE
    ensures !AlwaysSettles(false, SpecsOf(kluster, [a, b]))
  {
    var specs := SpecsOf(kluster, [a, b]);
    ASeesAB(kluster);
    assert specs[0] in specs && specs[1] in specs;
    OverlapUnsettles(false, specs, specs[0], specs[1]);
  }

  /** Two klusters of a project, all of whose names are as the API's schema wants them. */
  lemma KlusterNamesCollide(a: NodePool, p: NodePool)
    requires a.name == "a" && a.size >= 0 && p.name == "p" && p.size > 0
    ensures !AlwaysSettles(false, [Spec("k", a), Spec("k-a", p)])
  {
    var specs := [Spec("k", a), Spec("k-a", p)];
    assert specs[0] in specs && specs[1] in specs;
    assert specs[0].Prefix() == "k-a-" && specs[1].Prefix() == "k-a-p-";
    assert "k-a-" <= "k-a-p-";
    OverlapUnsettles(false, specs, specs[0], specs[1]);
  }

  /** A pool whose names are cut off creates VMs that it never finds again. */
  lemma LongNamesUnsettle(anywhere: bool, q: Spec)
    requires q.pool.size > 0 && |q.Prefix()| > MAX_BASE
    ensures !AlwaysSettles(anywhere, [q])
  {
    SeesItselfIff(anywhere, q.Prefix());
    assert q in [q];
    AllPoolsSettleIff(anywhere, [q]);
  }
}
