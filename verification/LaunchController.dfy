/**
 The launch controller (pkg/controller/launch) as imperative code over the compute service,
 proved equal to the rounds of NodePools, and what a quiet reconciliation means.
 */
module LaunchController {
  import opened Common
  import opened Klusters
  import opened PoolNames
  import opened NodePools

  /** The pools of a kluster. */
  function SpecsOf(kluster: string, pools: seq<NodePool>): seq<Spec> {
    seq(|pools|, i requires 0 <= i < |pools| => Spec(kluster, pools[i]))
  }

  /** What a whole reconciliation did. */
  datatype Outcome = Outcome(cloud: Cloud, requeue: bool, ending: Ending, reports: seq<NodePoolInfo>)

  /** The rounds of pools i.. in order; an error ends the reconciliation. */
  function Rounds(c: Cloud, terminating: bool, specs: seq<Spec>, env: nat -> PoolEnv, i: nat): Outcome
    requires i <= |specs|
    decreases |specs| - i
  {
    if i == |specs| then Outcome(c, false, Fine, [])
    else
      var r := PoolRound(c, terminating, specs[i], env(i));
      var reports := if r.report.Some? then [r.report.value] else [];
      if r.ending != Fine then Outcome(r.cloud, false, r.ending, reports)
      else
        var rest := Rounds(r.cloud, terminating, specs, env, i + 1);
        rest.(requeue := rest.ending == Fine && (r.requeue || rest.requeue), reports := reports + rest.reports)
  }

  function Reconciled(c: Cloud, kluster: string, phase: Phase, pools: seq<NodePool>, env: nat -> PoolEnv): Outcome {
    if phase != Running && phase != Terminating then Outcome(c, false, Fine, [])
    else Rounds(c, phase == Terminating, SpecsOf(kluster, pools), env, 0)
  }

  // ----- Quiet reconciliations ------------------------------------------------------------------------------

  ghost predicate AnyOrder(env: nat -> PoolEnv) {
    forall i: nat :: Permutes(env(i).order)
  }

  /** Without an error and without a request to come back, every pool lists what it wants and nothing was touched. */
  lemma {:induction false} QuietRounds(c: Cloud, terminating: bool, specs: seq<Spec>, env: nat -> PoolEnv, i: nat)
    requires i <= |specs| && AnyOrder(env)
    requires var o := Rounds(c, terminating, specs, env, i); !o.requeue && o.ending == Fine
    ensures Rounds(c, terminating, specs, env, i).cloud == c
    ensures forall k :: i <= k < |specs| ==> Reached(Listed(c, specs[k].Prefix()), terminating, specs[k].pool.size)
    decreases |specs| - i
  {
    hide PoolRound, Count, Select, Permutes;
    if i < |specs| {
      assert Permutes(env(i).order);
      QuietRound(c, terminating, specs[i], env(i));
      QuietRounds(c, terminating, specs, env, i + 1);
    }
  }

  /** The VMs that were created for a pool. */
  ghost predicate Own(n: Node, spec: Spec) {
    exists s: Suffix :: n.name == GenerateName(spec.Prefix(), s)
  }

  ghost function OwnNodes(nodes: seq<Node>, spec: Spec): seq<Node> {
    if nodes == [] then []
    else
      var n := nodes[|nodes| - 1];
      OwnNodes(nodes[..|nodes| - 1], spec) + if Own(n, spec) then [n] else []
  }

  /** Every pool lists the VMs of its own and of no other one. */
  predicate NoOverlap(anywhere: bool, specs: seq<Spec>) {
    forall p <- specs, q <- specs :: Sees(anywhere, p.Prefix(), q.Prefix()) <==> p.Prefix() == q.Prefix()
  }

  /** Then, if the project holds VMs of these pools only, what a pool lists is what it created. */
  lemma {:induction false} ListedIsOwn(c: Cloud, specs: seq<Spec>, p: Spec)
    requires NoOverlap(c.anywhere, specs) && p in specs
    requires forall n <- c.nodes :: exists q <- specs :: Own(n, q)
    ensures Listed(c, p.Prefix()) == OwnNodes(c.nodes, p)
    decreases |c.nodes|
  {
    hide Own, NoOverlap;
    if c.nodes != [] {
      var front, n := c.(nodes := c.nodes[..|c.nodes| - 1]), c.nodes[|c.nodes| - 1];
      assert forall m <- front.nodes :: m in c.nodes;
      ListedIsOwn(front, specs, p);
      assert n in c.nodes;
      var q :| q in specs && Own(n, q);
      OwnIff(c.anywhere, specs, n, p, q);
    }
  }

  lemma OwnIff(anywhere: bool, specs: seq<Spec>, n: Node, p: Spec, q: Spec)
    requires NoOverlap(anywhere, specs) && p in specs && q in specs && Own(n, q)
    ensures Matches(anywhere, p.Prefix(), n.name) <==> Own(n, p)
  {
    var s: Suffix :| n.name == GenerateName(q.Prefix(), s);
    GeneratedMatches(anywhere, p.Prefix(), q.Prefix(), s);
    if Own(n, p) {
      var s': Suffix :| n.name == GenerateName(p.Prefix(), s');
      GeneratedMatches(anywhere, p.Prefix(), p.Prefix(), s');
    }
  }

  /**
   A quiet reconciliation: every pool lists what it wants, and if no names overlap and the project
   holds VMs of these pools only, that is what the pool itself created.
   */
  lemma QuietReconcile(c: Cloud, kluster: string, phase: Phase, pools: seq<NodePool>, env: nat -> PoolEnv, k: nat)
    requires phase == Running || phase == Terminating
    requires AnyOrder(env) && k < |pools|
    requires var o := Reconciled(c, kluster, phase, pools, env); !o.requeue && o.ending == Fine
    ensures var specs := SpecsOf(kluster, pools);
            && Reached(Listed(c, specs[k].Prefix()), phase == Terminating, pools[k].size)
            && (NoOverlap(c.anywhere, specs) && (forall n <- c.nodes :: exists q <- specs :: Own(n, q)) ==>
                  Reached(OwnNodes(c.nodes, specs[k]), phase == Terminating, pools[k].size))
  {
    var specs := SpecsOf(kluster, pools);
    hide Reached, Own, NoOverlap;
    QuietRounds(c, phase == Terminating, specs, env, 0);
    assert specs[k] in specs;
    if NoOverlap(c.anywhere, specs) && (forall n <- c.nodes :: exists q <- specs :: Own(n, q)) {
      ListedIsOwn(c, specs, specs[k]);
    }
  }

  /** Where names overlap it need not be: pools "a" of size 2 and "a-b" of size 1 are quiet with one VM each. */
  lemma QuietWithTooFew(kluster: string) returns (c: Cloud, pools: seq<NodePool>, env: nat -> PoolEnv)
    requires |Prefix(kluster, "a-b")| <= MAX_BASE
    ensures AnyOrder(env)
    ensures var o := Reconciled(c, kluster, Running, pools, env); !o.requeue && o.ending == Fine
    ensures |pools| == 2 && pools[0].size == 2 && pools[0].name == "a"
    ensures Count(OwnNodes(c.nodes, SpecsOf(kluster, pools)[0])).running == 1
  {
    hide Select, Count, PoolRound, GenerateName, Base, Matches, OwnNodes, Permutes;
    var config := NodePoolConfig(false, false);
    pools := [NodePool("a", "", "", 2, config), NodePool("a-b", "", "", 1, config)];
    var quiet := PoolEnv(true, nodes => nodes, (k: nat) => Call([], true, true, true, "bbbbb"), true);
    env := (i: nat) => quiet;
    assert Permutes(quiet.order) by { SameOrder(); }
    var specs := SpecsOf(kluster, pools);
    var p, q := Prefix(kluster, "a"), Prefix(kluster, "a-b");
    var m := Node(0, GenerateName(p, "bbbbb"), "", "active", 1);
    var n := Node(1, GenerateName(q, "bbbbb"), "", "active", 1);
    c := Cloud([m, n], 2, false);
    ASeesAB(kluster);
    GeneratedMatches(false, p, p, "bbbbb");
    GeneratedMatches(false, p, q, "bbbbb");
    GeneratedMatches(false, q, p, "bbbbb");
    GeneratedMatches(false, q, q, "bbbbb");
    TwoListed(m, n, Keep(false, p));
    TwoListed(m, n, Keep(false, q));
    TwoRunning(m, n);
    OneOwn(m, n, specs[0], specs[1]);
    RestingRound(c, specs[0], quiet);
    RestingRound(c, specs[1], quiet);
    assert Rounds(c, false, specs, env, 2) == Outcome(c, false, Fine, []);
    assert Rounds(c, false, specs, env, 1).cloud == c;
  }

  lemma SameOrder()
    ensures Permutes(nodes => nodes)
  {
  }

  lemma ASeesAB(kluster: string)
    requires |Prefix(kluster, "a-b")| <= MAX_BASE
    ensures var p, q := Prefix(kluster, "a"), Prefix(kluster, "a-b");
            Sees(false, p, p) && Sees(false, p, q) && !Sees(false, q, p) && Sees(false, q, q)
  {
    var p, q := Prefix(kluster, "a"), Prefix(kluster, "a-b");
    assert q == p + "b-" by { assert "a-b" == "a-" + "b"; }
    assert Base(p) == p && Base(q) == q;
  }

  lemma TwoListed(m: Node, n: Node, keep: string -> bool)
    requires keep(n.name)
    ensures Select([m, n], keep) == if keep(m.name) then [m, n] else [n]
  {
    assert [m, n] == [m] + [n];
    SelectAppend([m], [n], keep);
    SelectOne(m, keep);
    SelectOne(n, keep);
  }

  lemma TwoRunning(m: Node, n: Node)
    requires m.Running() && n.Running()
    ensures Count([m, n]).running == 2 && Count([m, n]).Pending() == 0
    ensures Count([n]) == Count([m]) && Count([n]).running == 1 && Count([n]).Pending() == 0
  {
    hide TallyOf, Count;
    OneRunning(m);
    OneRunning(n);
    assert [m, n] == [m] + [n];
    CountAppend([m], [n]);
  }

  lemma OneRunning(n: Node)
    requires n.Running()
    ensures Count([n]) == Tally(1, 0, 0, 0)
  {
    CountOne(n);
  }

  lemma OneOwn(m: Node, n: Node, p: Spec, q: Spec)
    requires m.name == GenerateName(p.Prefix(), "bbbbb") && n.name == GenerateName(q.Prefix(), "bbbbb")
    requires |p.Prefix()| < |q.Prefix()| <= MAX_BASE
    ensures OwnNodes([m, n], p) == [m]
  {
    hide GenerateName, Base;
    NameLength(q.Prefix(), "bbbbb");
    forall s: Suffix ensures n.name != GenerateName(p.Prefix(), s) { NameLength(p.Prefix(), s); }
    assert Own(m, p) && !Own(n, p);
    assert [m, n][..1] == [m] && [m][..0] == [];
    assert OwnNodes([], p) == [];
    assert OwnNodes([m], p) == [] + [m];
    assert OwnNodes([m, n], p) == OwnNodes([m], p) + [];
  }

  lemma NameLength(prefix: string, s: Suffix)
    requires |prefix| <= MAX_BASE
    ensures |GenerateName(prefix, s)| == |prefix| + 5
  {
  }

  // ----- The code -------------------------------------------------------------------------------------------

  /** Nova, as far as the controller uses it. */
  class Compute {
    var nodes: seq<Node>
    var nextID: nat
    const anywhere: bool

    constructor (c: Cloud)
      ensures Abs() == c
    {
      this.nodes, this.nextID, this.anywhere := c.nodes, c.nextID, c.anywhere;
    }

    ghost function Abs(): Cloud
      reads this
    {
      Cloud(nodes, nextID, anywhere)
    }

    /** The VMs whose names match the filter. */
    method GetNodes(kluster: string, pool: string, listed: bool, order: seq<Node> -> seq<Node>)
      returns (r: Option<seq<Node>>)
      ensures r == if listed then Some(order(NodePools.Listed(Abs(), Prefix(kluster, pool)))) else None
    {
      if !listed { return None; }
      var prefix := kluster + "-" + pool + "-";
      var found: seq<Node> := [];
      for i := 0 to |nodes|
        invariant found == Select(nodes[..i], Keep(anywhere, prefix))
      {
        assert nodes[..i + 1][..i] == nodes[..i];
        if Matches(anywhere, prefix, nodes[i].name) { found := found + [nodes[i]]; }
      }
      assert nodes[..|nodes|] == nodes;
      return Some(order(found));
    }

    method CreateNode(kluster: string, pool: string, call: Call) returns (ok: bool)
      modifies this
      ensures Abs() == Create(old(Abs()), Prefix(kluster, pool), call) && ok == call.ok
    {
      nodes := Drifted(nodes, call.drift);
      var name := GenerateName(kluster + "-" + pool + "-", call.suffix);
      if call.ok || call.applied {
        nodes := nodes + [Node(nextID, name, "scheduling", "building", 0)];
        nextID := nextID + 1;
      }
      ok := call.ok;
    }

    method DeleteNode(id: nat, call: Call) returns (ok: bool)
      modifies this
      ensures Abs() == Delete(old(Abs()), id, call) && ok == !DeleteFails(old(Abs()), id, call)
    {
      nodes := Drifted(nodes, call.drift);
      ok := call.ok && Present(nodes, id);
      if call.ok || call.applied {
        nodes := Replace(nodes, id, (n: Node) => if call.atOnce then [] else [Deleting(n)]);
      }
    }
  }

  datatype PoolStatus = PoolStatus(nodes: seq<nat>, running: int, starting: int, stopping: int, needed: int,
    unNeeded: int)

  class PoolManager {
    const compute: Compute
    const kluster: string
    const pool: NodePool

    constructor (compute: Compute, kluster: string, pool: NodePool)
      ensures this.compute == compute && this.kluster == kluster && this.pool == pool
    {
      this.compute, this.kluster, this.pool := compute, kluster, pool;
    }

    static method CountRunning(nodes: seq<Node>) returns (count: int)
      ensures count == Count(nodes).running
    {
      count := 0;
      for i := 0 to |nodes|
        invariant count == Count(nodes[..i]).running
      {
        assert nodes[..i + 1][..i] == nodes[..i];
        if nodes[i].Running() { count := count + 1; }
      }
      assert nodes[..|nodes|] == nodes;
    }

    static method CountStarting(nodes: seq<Node>) returns (count: int)
      ensures count == Count(nodes).starting
    {
      count := 0;
      for i := 0 to |nodes|
        invariant count == Count(nodes[..i]).starting
      {
        assert nodes[..i + 1][..i] == nodes[..i];
        if nodes[i].Starting() { count := count + 1; }
      }
      assert nodes[..|nodes|] == nodes;
    }

    static method CountStopping(nodes: seq<Node>) returns (count: int)
      ensures count == Count(nodes).stopping
    {
      count := 0;
      for i := 0 to |nodes|
        invariant count == Count(nodes[..i]).stopping
      {
        assert nodes[..i + 1][..i] == nodes[..i];
        if nodes[i].Stopping() { count := count + 1; }
      }
      assert nodes[..|nodes|] == nodes;
    }

    static method IDs(nodes: seq<Node>) returns (ids: seq<nat>)
      ensures ids == NodeIDs(nodes)
    {
      ids := [];
      for i := 0 to |nodes|
        invariant ids == NodeIDs(nodes)[..i]
      {
        ids := ids + [nodes[i].id];
      }
    }

    /** Ids and counts of what Nova lists for the pool. */
    method GetStatus(listed: bool, order: seq<Node> -> seq<Node>) returns (status: Option<PoolStatus>)
      ensures listed ==>
                var listing := order(NodePools.Listed(compute.Abs(), Prefix(kluster, pool.name)));
                var t := Count(listing);
                status == Some(PoolStatus.PoolStatus(NodeIDs(listing), t.running, t.starting, t.stopping,
                                                     Needed(t, pool.size), UnNeeded(t, pool.size)))
      ensures !listed ==> status == None
    {
      hide Count, NodePools.Listed, Prefix, NodeIDs;
      var listing := compute.GetNodes(kluster, pool.name, listed, order);
      if listing.None? { return None; }
      var nodes := listing.value;
      var ids := IDs(nodes);
      var running := CountRunning(nodes);
      var starting := CountStarting(nodes);
      var stopping := CountStopping(nodes);
      var needed := pool.size - running - starting;
      if needed < 0 { needed := 0; }
      var unNeeded := running + starting - pool.size;
      if unNeeded < 0 { unNeeded := 0; }
      return Some(PoolStatus.PoolStatus(ids, running, starting, stopping, needed, unNeeded));
    }

    /** The calls of the creating loop. */
    method CreateNodes(needed: nat, calls: nat -> Call) returns (ending: Ending)
      modifies compute
      ensures (compute.Abs(), ending) == CreateLoop(old(compute.Abs()), Prefix(kluster, pool.name), calls, 0, needed)
    {
      hide Create, Prefix;
      ghost var c, prefix := compute.Abs(), Prefix(kluster, pool.name);
      for i := 0 to needed
        invariant CreateLoop(c, prefix, calls, 0, needed) == CreateLoop(compute.Abs(), prefix, calls, i, needed)
      {
        var ok := compute.CreateNode(kluster, pool.name, calls(i));
        if !ok { return Failed; }
      }
      return Fine;
    }

    /** The calls of a deleting loop; an index past the listed VMs would be a run-time panic. */
    method DeleteNodes(ids: seq<nat>, count: nat, calls: nat -> Call) returns (ending: Ending)
      modifies compute
      ensures (compute.Abs(), ending) == DeleteLoop(old(compute.Abs()), ids, calls, 0, count)
    {
      hide Delete, DeleteFails;
      ghost var c := compute.Abs();
      for i := 0 to count
        invariant DeleteLoop(c, ids, calls, 0, count) == DeleteLoop(compute.Abs(), ids, calls, i, count)
      {
        if i >= |ids| { return OutOfBounds; }
        var ok := compute.DeleteNode(ids[i], calls(i));
        if !ok { return Failed; }
      }
      return Fine;
    }

    method ReconcilePool(terminating: bool, env: PoolEnv)
      returns (requeue: bool, ending: Ending, report: Option<NodePoolInfo>)
      modifies compute
      ensures Round(compute.Abs(), requeue, ending, report) ==
              PoolRound(old(compute.Abs()), terminating, Spec(kluster, pool), env)
    {
      hide Count, CreateLoop, DeleteLoop, NodePools.Listed, Prefix;
      requeue, ending, report := false, Failed, None;
      var listing := GetStatus(env.listed, env.order);
      if listing.None? { return; }
      var status := listing.value;
      if terminating {
        requeue := |status.nodes| > 0;
        ending := DeleteNodes(status.nodes, |status.nodes|, env.calls);
        return;
      }
      if status.needed > 0 {
        requeue := true;
        ending := CreateNodes(status.needed, env.calls);
        return;
      }
      if status.unNeeded > 0 {
        requeue := true;
        ending := DeleteNodes(status.nodes, status.unNeeded, env.calls);
        return;
      }
      if status.starting > 0 {
        requeue := true;
      } else if status.stopping > 0 {
        requeue := true;
      }
      var present := status.running + status.starting;
      report := Some(NodePoolInfo(pool.name, pool.size, present, status.running, status.running));
      ending := if env.saved then Fine else Failed;
    }
  }

  /** What the rest of a reconciliation adds to what was done so far. */
  function Joined(requeue: bool, reports: seq<NodePoolInfo>, rest: Outcome): Outcome {
    rest.(requeue := rest.ending == Fine && (requeue || rest.requeue), reports := reports + rest.reports)
  }

  lemma RoundsStep(c: Cloud, terminating: bool, specs: seq<Spec>, env: nat -> PoolEnv, i: nat, requeue: bool,
                   reports: seq<NodePoolInfo>)
    requires i < |specs|
    ensures var r := PoolRound(c, terminating, specs[i], env(i));
            var all := reports + if r.report.Some? then [r.report.value] else [];
            Joined(requeue, reports, Rounds(c, terminating, specs, env, i)) ==
            if r.ending != Fine then Outcome(r.cloud, false, r.ending, all)
            else Joined(requeue || r.requeue, all, Rounds(r.cloud, terminating, specs, env, i + 1))
  {
    hide PoolRound;
    var r := PoolRound(c, terminating, specs[i], env(i));
    if r.ending == Fine {
      var rest := Rounds(r.cloud, terminating, specs, env, i + 1);
      var mine := if r.report.Some? then [r.report.value] else [];
      assert (reports + mine) + rest.reports == reports + (mine + rest.reports);
    }
  }

  method Reconcile(compute: Compute, kluster: string, phase: Phase, pools: seq<NodePool>, env: nat -> PoolEnv)
    returns (requeueRequested: bool, ending: Ending, reports: seq<NodePoolInfo>)
    modifies compute
    ensures Outcome(compute.Abs(), requeueRequested, ending, reports) ==
            Reconciled(old(compute.Abs()), kluster, phase, pools, env)
  {
    hide PoolRound, Rounds;
    requeueRequested, ending, reports := false, Fine, [];
    if !(phase == Running || phase == Terminating) { return; }
    ghost var specs := SpecsOf(kluster, pools);
    ghost var all := Rounds(compute.Abs(), phase == Terminating, specs, env, 0);
    assert all == Joined(false, [], all) by {
      RoundsRequeue(compute.Abs(), phase == Terminating, specs, env, 0);
    }
    for i := 0 to |pools|
      invariant ending == Fine
      invariant all == Joined(requeueRequested, reports, Rounds(compute.Abs(), phase == Terminating, specs, env, i))
    {
      var pm := new PoolManager(compute, kluster, pools[i]);
      var requeue, report;
      RoundsStep(compute.Abs(), phase == Terminating, specs, env, i, requeueRequested, reports);
      requeue, ending, report := pm.ReconcilePool(phase == Terminating, env(i));
      if report.Some? { reports := reports + [report.value]; }
      if ending != Fine {
        requeueRequested := false;
        return;
      }
      if requeue { requeueRequested := true; }
    }
    RoundsEnd(compute.Abs(), phase == Terminating, specs, env);
  }

  lemma RoundsEnd(c: Cloud, terminating: bool, specs: seq<Spec>, env: nat -> PoolEnv)
    ensures Rounds(c, terminating, specs, env, |specs|) == Outcome(c, false, Fine, [])
  {
  }

  lemma RoundsRequeue(c: Cloud, terminating: bool, specs: seq<Spec>, env: nat -> PoolEnv, i: nat)
    requires i <= |specs|
    ensures var o := Rounds(c, terminating, specs, env, i); o.requeue ==> o.ending == Fine
  {
  }
}
