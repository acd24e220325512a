/** A VM that is being built counts as exactly one starting VM, in every stage (pkg/client/openstack/client.go). */
module NodeBuilding {
  import opened Common
  import opened PoolNames
  import opened NodePools

  /** Which states count as what. */
  lemma StateTable(n: Node)
    ensures n.Starting() <==>
            n.taskState in {"scheduling", "networking", "block_device_mapping", "spawning"} ||
            (n.taskState == "" && n.vmState == "building")
    ensures n.Stopping() <==> n.taskState !in {"", "scheduling", "networking", "block_device_mapping", "spawning"}
    ensures n.Running() <==> n.taskState == "" && n.vmState == "active" && n.powerState <= 1
  {
  }

  /** VM i is the only one with this id; it has this name, and counts as one starting VM. */
  predicate StartingAt(nodes: seq<Node>, i: nat, id: nat, name: string) {
    && i < |nodes| && nodes[i].id == id && nodes[i].name == name && TallyOf(nodes[i]) == Tally(0, 1, 0, 0)
    && forall j :: 0 <= j < |nodes| && j != i ==> nodes[j].id != id
  }

  predicate OneStarting(nodes: seq<Node>, id: nat, name: string) {
    exists i :: 0 <= i < |nodes| && StartingAt(nodes, i, id, name)
  }

  /** Neither this VM's boot, nor its end, nor a call to delete it. */
  predicate SparesDrift(drift: seq<Drift>, id: nat) {
    forall d <- drift :: d.Boots? || d.Breaks? ==> d.id != id
  }

  /** What happens to a project: VMs act on their own, or somebody calls. */
  datatype Act = Drifting(drift: seq<Drift>) | Creating(prefix: string, call: Call) | Deletes(id: nat, call: Call)

  predicate Spares(a: Act, id: nat) {
    match a
    case Drifting(drift) => SparesDrift(drift, id)
    case Creating(_, call) => SparesDrift(call.drift, id)
    case Deletes(other, call) => other != id && SparesDrift(call.drift, id)
  }

  function Acted(c: Cloud, a: Act): Cloud {
    match a
    case Drifting(drift) => c.(nodes := Drifted(c.nodes, drift))
    case Creating(prefix, call) => Create(c, prefix, call)
    case Deletes(id, call) => Delete(c, id, call)
  }

  function AfterActs(c: Cloud, acts: seq<Act>): Cloud {
    if acts == [] then c else Acted(AfterActs(c, acts[..|acts| - 1]), acts[|acts| - 1])
  }

  predicate OldIDs(nodes: seq<Node>, nextID: nat) {
    forall n <- nodes :: n.id < nextID
  }

  predicate SameOrNone(n: Node, m: seq<Node>) {
    m == [] || (|m| == 1 && m[0].id == n.id && m[0].name == n.name)
  }

  /** One VM becomes another of the same id and name, or none; this one goes on starting. */
  lemma ReplaceSpares(nodes: seq<Node>, other: nat, becomes: Node -> seq<Node>, id: nat, name: string)
    requires forall n {:trigger becomes(n)} :: SameOrNone(n, becomes(n))
    requires other == id ==> forall n {:trigger becomes(n)} ::
               TallyOf(n) == Tally(0, 1, 0, 0) ==> becomes(n) != [] && TallyOf(becomes(n)[0]) == Tally(0, 1, 0, 0)
    ensures OneStarting(nodes, id, name) ==> OneStarting(Replace(nodes, other, becomes), id, name)
    ensures forall m <- Replace(nodes, other, becomes) :: Present(nodes, m.id)
  {
    hide TallyOf, SameOrNone;
    if Present(nodes, other) {
      var k := Find(nodes, other);
      assert SameOrNone(nodes[k], becomes(nodes[k]));
      PartKept(nodes, k, becomes(nodes[k]));
      if i :| 0 <= i < |nodes| && StartingAt(nodes, i, id, name) { StartsOn(nodes, k, becomes(nodes[k]), i, id, name); }
    }
  }

  lemma PartKept(nodes: seq<Node>, k: nat, m: seq<Node>)
    requires k < |nodes| && SameOrNone(nodes[k], m)
    ensures forall n <- nodes[..k] + m + nodes[k + 1..] :: Present(nodes, n.id)
  {
    forall n | n in nodes[..k] + m + nodes[k + 1..] ensures Present(nodes, n.id) {
      var o := if n in m then nodes[k] else n;
      assert o in nodes && o.id == n.id;
    }
  }

  lemma StartsOn(nodes: seq<Node>, k: nat, m: seq<Node>, i: nat, id: nat, name: string)
    requires k < |nodes| && SameOrNone(nodes[k], m) && StartingAt(nodes, i, id, name)
    requires k == i ==> m != [] && TallyOf(m[0]) == Tally(0, 1, 0, 0)
    ensures OneStarting(nodes[..k] + m + nodes[k + 1..], id, name)
  {
    hide TallyOf;
    var after := nodes[..k] + m + nodes[k + 1..];
    var at := if i <= k then i else i - 1 + |m|;
    assert forall j :: 0 <= j < |after| ==>
      after[j] == if j < k then nodes[j] else if j < k + |m| then m[j - k] else nodes[j + 1 - |m|];
    assert StartingAt(after, at, id, name);
  }

  lemma DriftOneSpares(nodes: seq<Node>, d: Drift, id: nat, name: string)
    requires d.Boots? || d.Breaks? ==> d.id != id
    ensures OneStarting(nodes, id, name) ==> OneStarting(DriftOne(nodes, d), id, name)
    ensures forall m <- DriftOne(nodes, d) :: Present(nodes, m.id)
  {
    AllTransitions();
    hide OneStarting, Replace, TallyOf;
    match d
    case Builds(other, stage) =>
      ReplaceSpares(nodes, other, (n: Node) => if n.Starting() then [InStage(n, stage)] else [n], id, name);
    case Boots(other) =>
      ReplaceSpares(nodes, other, (n: Node) => if n.Starting() then [Booted(n)] else [n], id, name);
    case Vanishes(other) =>
      ReplaceSpares(nodes, other, (n: Node) => if n.Stopping() then [] else [n], id, name);
    case Breaks(other) => ReplaceSpares(nodes, other, (n: Node) => [Broken(n)], id, name);
  }

  lemma AllTransitions()
    ensures forall n: Node :: TallyOf(n) == Tally(0, 1, 0, 0) <==> n.Starting()
    ensures forall n: Node, stage :: TallyOf(InStage(n, stage)) == Tally(0, 1, 0, 0)
    ensures forall n: Node :: n.Starting() ==> !n.Stopping()
  {
  }

  lemma {:induction false} DriftedSpares(nodes: seq<Node>, drift: seq<Drift>, id: nat, name: string)
    requires SparesDrift(drift, id)
    ensures OneStarting(nodes, id, name) ==> OneStarting(Drifted(nodes, drift), id, name)
    decreases |drift|
  {
    hide OneStarting, DriftOne;
    if drift != [] {
      var before, last := drift[..|drift| - 1], drift[|drift| - 1];
      assert last in drift && forall d <- before :: d in drift;
      DriftedSpares(nodes, before, id, name);
      DriftOneSpares(Drifted(nodes, before), last, id, name);
    }
  }

  /** Drift brings no new ids. */
  lemma {:induction false} DriftedOld(nodes: seq<Node>, drift: seq<Drift>, nextID: nat)
    requires OldIDs(nodes, nextID)
    ensures OldIDs(Drifted(nodes, drift), nextID)
    decreases |drift|
  {
    hide DriftOne;
    if drift != [] {
      var before, last := drift[..|drift| - 1], drift[|drift| - 1];
      DriftedOld(nodes, before, nextID);
      DriftOneSpares(Drifted(nodes, before), last, last.id + 1, "");
    }
  }

  lemma AppendSpares(nodes: seq<Node>, n: Node, id: nat, name: string)
    requires n.id != id && OneStarting(nodes, id, name)
    ensures OneStarting(nodes + [n], id, name)
  {
    hide TallyOf;
    var i :| 0 <= i < |nodes| && StartingAt(nodes, i, id, name);
    assert StartingAt(nodes + [n], i, id, name);
  }

  lemma ActSpares(c: Cloud, a: Act, id: nat, name: string)
    requires Spares(a, id) && OneStarting(c.nodes, id, name) && id < c.nextID
    ensures OneStarting(Acted(c, a).nodes, id, name) && Acted(c, a).nextID >= c.nextID
  {
    hide OneStarting, Drifted, Replace, TallyOf, GenerateName;
    match a
    case Drifting(drift) => DriftedSpares(c.nodes, drift, id, name);
    case Creating(prefix, call) =>
      DriftedSpares(c.nodes, call.drift, id, name);
      AppendSpares(Drifted(c.nodes, call.drift), Created(c.nextID, prefix, call.suffix), id, name);
    case Deletes(other, call) =>
      DriftedSpares(c.nodes, call.drift, id, name);
      ReplaceSpares(Drifted(c.nodes, call.drift), other, (n: Node) => if call.atOnce then [] else [Deleting(n)], id,
        name);
  }

  /**
   From the call that creates it on a VM is there once and counts as exactly one starting VM, through
   all stages of its building and whatever happens to other VMs, until it boots, breaks or is deleted.
   */
  lemma {:induction false} BuildingCountsAsStarting(c: Cloud, prefix: string, call: Call, acts: seq<Act>)
    requires OldIDs(c.nodes, c.nextID) && call.ok
    requires forall a <- acts :: Spares(a, c.nextID)
    ensures var d := AfterActs(Create(c, prefix, call), acts);
            OneStarting(d.nodes, c.nextID, GenerateName(prefix, call.suffix)) && d.nextID > c.nextID
    decreases |acts|
  {
    hide Acted, Spares, GenerateName, Drifted, TallyOf;
    if acts == [] {
      var nodes := Drifted(c.nodes, call.drift);
      DriftedOld(c.nodes, call.drift, c.nextID);
      CreatedStarts(c.nextID, prefix, call.suffix);
      var after := nodes + [Created(c.nextID, prefix, call.suffix)];
      assert forall j :: 0 <= j < |nodes| ==> after[j] in nodes;
      assert StartingAt(after, |nodes|, c.nextID, GenerateName(prefix, call.suffix));
    } else {
      var before, last := acts[..|acts| - 1], acts[|acts| - 1];
      assert last in acts && forall a <- before :: a in acts;
      BuildingCountsAsStarting(c, prefix, call, before);
      hide OneStarting, Create;
      ActSpares(AfterActs(Create(c, prefix, call), before), last, c.nextID, GenerateName(prefix, call.suffix));
    }
  }

  // ----- No second VM ---------------------------------------------------------------------------------------

  lemma CreatedIsActive(c: Cloud, prefix: string, call: Call, keep: string -> bool)
    requires call.ok && keep(GenerateName(prefix, call.suffix))
    ensures CountIn(Create(c, prefix, call).nodes, keep).Active() + BreakCount(call.drift) >=
            CountIn(c.nodes, keep).Active() + 1
  {
    hide TallyOf, CountIn, Drifted, NodePools.Created, GenerateName;
    var n := NodePools.Created(c.nextID, prefix, call.suffix);
    DriftTally(c.nodes, call.drift, keep);
    CreatedStarts(c.nextID, prefix, call.suffix);
    CountInAppend(Drifted(c.nodes, call.drift), [n], keep);
    CountInOne(n, keep);
  }

  ghost predicate Unbroken(calls: nat -> Call, n: nat) {
    forall i :: 0 <= i < n ==> calls(i).ok && BreakCount(calls(i).drift) == 0
  }

  lemma {:induction false} LoopAddsAll(c: Cloud, prefix: string, calls: nat -> Call, i: nat, n: nat,
                                       keep: string -> bool)
    requires i <= n && Unbroken(calls, n) && forall s: Suffix :: keep(GenerateName(prefix, s))
    ensures CountIn(CreateLoop(c, prefix, calls, i, n).0.nodes, keep).Active() >=
            CountIn(c.nodes, keep).Active() + n - i
    decreases n - i
  {
    hide CountIn, Create, BreakCount, GenerateName;
    if i < n {
      assert calls(i).ok && BreakCount(calls(i).drift) == 0;
      CreatedIsActive(c, prefix, calls(i), keep);
      LoopAddsAll(Create(c, prefix, calls(i)), prefix, calls, i + 1, n, keep);
    }
  }

  /**
   A pool that lists what it creates has exactly its size of running and starting VMs once a round created
   what was missing, whatever stages they get to then: the next round creates and deletes nothing.
   */
  lemma NoSecondVM(c: Cloud, spec: Spec, calls: nat -> Call, drift: seq<Drift>)
    requires Sees(c.anywhere, spec.Prefix(), spec.Prefix()) && BreakCount(drift) == 0
    requires var needed := Needed(Count(Listed(c, spec.Prefix())), spec.pool.size);
             needed > 0 && Unbroken(calls, needed)
    ensures var needed := Needed(Count(Listed(c, spec.Prefix())), spec.pool.size);
            var d := CreateLoop(c, spec.Prefix(), calls, 0, needed).0;
            var t := Count(Listed(d.(nodes := Drifted(d.nodes, drift)), spec.Prefix()));
            t.Active() == spec.pool.size && Needed(t, spec.pool.size) == UnNeeded(t, spec.pool.size) == 0
  {
    var keep, prefix := Keep(c.anywhere, spec.Prefix()), spec.Prefix();
    var needed := Needed(Count(Listed(c, prefix)), spec.pool.size);
    var d := CreateLoop(c, prefix, calls, 0, needed).0;
    NeverOvershoots(c, spec, calls, needed);
    SameFilter(c, prefix, calls, 0, needed);
    forall s: Suffix ensures keep(GenerateName(prefix, s)) { GeneratedMatches(c.anywhere, prefix, prefix, s); }
    hide Count, CreateLoop, Drifted, Keep, GenerateName, Unbroken, BreakCount;
    LoopAddsAll(c, prefix, calls, 0, needed, keep);
    DriftTally(d.nodes, drift, keep);
  }
}
