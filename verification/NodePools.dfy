/**
 Node pool reconciliation (pkg/controller/launch): one round classifies the VMs that Nova lists for
 the pool, then creates or deletes. Calls may fail at any point, and may have failed late. The
 cloud holds all VMs of the OpenStack project; which of them a pool lists is a matter of names.
 */
module NodePools {
  import opened Common
  import opened Klusters
  import opened PoolNames

  // ----- VMs and their states (pkg/client/openstack/client.go) -----------------------------------

  /** Ids are numbers here; the cloud hands out a fresh one for each VM. */
  datatype Node = Node(id: nat, name: string, taskState: string, vmState: string, powerState: int) {
    predicate Spawning() {
      taskState == "spawning" || taskState == "scheduling" || taskState == "networking" ||
      taskState == "block_device_mapping"
    }

    predicate Starting() {
      if Spawning() then true
      else if taskState != "" then false
      else vmState == "building"
    }

    predicate Stopping() {
      if Spawning() then false else taskState != ""
    }

    predicate Running() {
      if Starting() || Stopping() then false
      else if powerState > 1 then false
      else vmState == "active"
    }
  }

  /** How many VMs are in each state. */
  datatype Tally = Tally(running: nat, starting: nat, stopping: nat, other: nat) {
    function Active(): nat { running + starting }
    function Pending(): nat { starting + stopping }
  }

  function TallyOf(n: Node): Tally {
    if n.Starting() then Tally(0, 1, 0, 0)
    else if n.Stopping() then Tally(0, 0, 1, 0)
    else if n.Running() then Tally(1, 0, 0, 0)
    else Tally(0, 0, 0, 1)
  }

  function Plus(a: Tally, b: Tally): Tally {
    Tally(a.running + b.running, a.starting + b.starting, a.stopping + b.stopping, a.other + b.other)
  }

  function Count(nodes: seq<Node>): Tally {
    if nodes == [] then Tally(0, 0, 0, 0) else Plus(Count(nodes[..|nodes| - 1]), TallyOf(nodes[|nodes| - 1]))
  }

  lemma {:induction false} CountAppend(a: seq<Node>, b: seq<Node>)
    ensures Count(a + b) == Plus(Count(a), Count(b))
    decreases |b|
  {
    hide TallyOf;
    if b == [] {
      assert a + b == a;
    } else {
      assert (a + b)[..|a + b| - 1] == a + b[..|b| - 1];
      CountAppend(a, b[..|b| - 1]);
    }
  }

  lemma CountOne(n: Node)
    ensures Count([n]) == TallyOf(n)
  {
    assert [n][..0] == [];
  }

  lemma CountNone()
    ensures Count([]) == Tally(0, 0, 0, 0)
  {
  }

  /** The three states exclude each other, so no more VMs are counted than listed. */
  lemma {:induction false} CountBound(nodes: seq<Node>)
    ensures Count(nodes).running + Count(nodes).starting + Count(nodes).stopping + Count(nodes).other == |nodes|
    ensures forall n :: n in nodes && n.Starting() ==> !n.Stopping() && !n.Running()
    ensures forall n :: n in nodes && n.Stopping() ==> !n.Running()
    decreases |nodes|
  {
    if nodes != [] {
      CountBound(nodes[..|nodes| - 1]);
    }
  }

  /** The VMs whose names are as wanted, in order. */
  function Select(nodes: seq<Node>, keep: string -> bool): seq<Node> {
    if nodes == [] then []
    else
      var n := nodes[|nodes| - 1];
      Select(nodes[..|nodes| - 1], keep) + if keep(n.name) then [n] else []
  }

  function CountIn(nodes: seq<Node>, keep: string -> bool): Tally {
    Count(Select(nodes, keep))
  }

  lemma {:induction false} SelectAppend(a: seq<Node>, b: seq<Node>, keep: string -> bool)
    ensures Select(a + b, keep) == Select(a, keep) + Select(b, keep)
    decreases |b|
  {
    if b == [] {
      assert a + b == a;
    } else {
      assert (a + b)[..|a + b| - 1] == a + b[..|b| - 1];
      SelectAppend(a, b[..|b| - 1], keep);
    }
  }

  lemma CountInAppend(a: seq<Node>, b: seq<Node>, keep: string -> bool)
    ensures CountIn(a + b, keep) == Plus(CountIn(a, keep), CountIn(b, keep))
  {
    SelectAppend(a, b, keep);
    CountAppend(Select(a, keep), Select(b, keep));
  }

  lemma CountInOne(n: Node, keep: string -> bool)
    ensures CountIn([n], keep) == if keep(n.name) then TallyOf(n) else Tally(0, 0, 0, 0)
  {
    SelectOne(n, keep);
    CountOne(n);
  }

  lemma SelectOne(n: Node, keep: string -> bool)
    ensures Select([n], keep) == if keep(n.name) then [n] else []
  {
    assert [n][..0] == [];
    assert [] + [n] == [n];
  }

  lemma CountInNone(keep: string -> bool)
    ensures CountIn([], keep) == Tally(0, 0, 0, 0)
  {
  }

  // ----- The cloud ------------------------------------------------------------------------------------

  /** The project's VMs; anywhere says whether Nova's name filter also matches inside a name. */
  datatype Cloud = Cloud(nodes: seq<Node>, nextID: nat, anywhere: bool)

  function Keep(anywhere: bool, prefix: string): string -> bool {
    (name: string) => Matches(anywhere, prefix, name)
  }

  /** The VMs that Nova lists for a prefix, in the order of the project. */
  function Listed(c: Cloud, prefix: string): seq<Node> {
    Select(c.nodes, Keep(c.anywhere, prefix))
  }

  /** The stages in which Nova builds a VM; between two of them it may have no task. */
  datatype Stage = Scheduling | Waiting | Networking | MappingDevices | Spawning {
    function Task(): string {
      match this
      case Scheduling => "scheduling"
      case Waiting => ""
      case Networking => "networking"
      case MappingDevices => "block_device_mapping"
      case Spawning => "spawning"
    }
  }

  /** What VMs do on their own. */
  datatype Drift = Builds(id: nat, stage: Stage) | Boots(id: nat) | Vanishes(id: nat) | Breaks(id: nat)

  /** One call: what VMs did before it, whether it fails, and what it left behind. */
  datatype Call = Call(drift: seq<Drift>, ok: bool, applied: bool, atOnce: bool, suffix: Suffix)

  function InStage(n: Node, stage: Stage): Node {
    n.(taskState := stage.Task(), vmState := "building")
  }

  function Booted(n: Node): Node {
    n.(taskState := "", vmState := "active", powerState := 1)
  }

  function Broken(n: Node): Node {
    n.(taskState := "", vmState := "error", powerState := 0)
  }

  function Deleting(n: Node): Node {
    if n.Stopping() then n else n.(taskState := "deleting")
  }

  function Created(id: nat, prefix: string, suffix: Suffix): Node {
    Node(id, GenerateName(prefix, suffix), "scheduling", "building", 0)
  }

  predicate Present(nodes: seq<Node>, id: nat) {
    exists n <- nodes :: n.id == id
  }

  function Find(nodes: seq<Node>, id: nat): (i: nat)
    requires Present(nodes, id)
    ensures i < |nodes| && nodes[i].id == id && forall j :: 0 <= j < i ==> nodes[j].id != id
  {
    if nodes[0].id == id then 0
    else
      assert forall n :: n in nodes ==> n == nodes[0] || n in nodes[1..];
      1 + Find(nodes[1..], id)
  }

  /** Replace the first VM with an id; by nothing, if becomes is empty. */
  function Replace(nodes: seq<Node>, id: nat, becomes: Node -> seq<Node>): seq<Node> {
    if !Present(nodes, id) then nodes
    else
      var i := Find(nodes, id);
      nodes[..i] + becomes(nodes[i]) + nodes[i + 1..]
  }

  function DriftOne(nodes: seq<Node>, d: Drift): seq<Node> {
    match d
    case Builds(id, stage) => Replace(nodes, id, (n: Node) => if n.Starting() then [InStage(n, stage)] else [n])
    case Boots(id) => Replace(nodes, id, (n: Node) => if n.Starting() then [Booted(n)] else [n])
    case Vanishes(id) => Replace(nodes, id, (n: Node) => if n.Stopping() then [] else [n])
    case Breaks(id) => Replace(nodes, id, (n: Node) => [Broken(n)])
  }

  function Drifted(nodes: seq<Node>, drift: seq<Drift>): seq<Node> {
    if drift == [] then nodes else DriftOne(Drifted(nodes, drift[..|drift| - 1]), drift[|drift| - 1])
  }

  /** A created VM starts; a failed call may have created it, too. */
  function Create(c: Cloud, prefix: string, call: Call): Cloud {
    var nodes := Drifted(c.nodes, call.drift);
    if call.ok || call.applied then
      c.(nodes := nodes + [Created(c.nextID, prefix, call.suffix)], nextID := c.nextID + 1)
    else c.(nodes := nodes)
  }

  /** A VM to be deleted goes at once or stops first; an unknown id is an error. */
  function Delete(c: Cloud, id: nat, call: Call): Cloud {
    var nodes := Drifted(c.nodes, call.drift);
    if call.ok || call.applied then
      c.(nodes := Replace(nodes, id, (n: Node) => if call.atOnce then [] else [Deleting(n)]))
    else c.(nodes := nodes)
  }

  predicate DeleteFails(c: Cloud, id: nat, call: Call) {
    !call.ok || !Present(Drifted(c.nodes, call.drift), id)
  }

  // ----- One round of a pool, as a function ---------------------------------------------------------

  /** A pool of some kluster of the project. */
  datatype Spec = Spec(kluster: string, pool: NodePool) {
    function Prefix(): (p: string)
      ensures EndsInHyphen(p)
    {
      PoolNames.Prefix(kluster, pool.name)
    }
  }

  /** What the environment does during a round; Nova lists VMs in any order. */
  datatype PoolEnv = PoolEnv(listed: bool, order: seq<Node> -> seq<Node>, calls: nat -> Call, saved: bool)

  datatype Ending = Fine | Failed | OutOfBounds

  /** What a round did: the VMs left, whether it asks to come back, and the status it wrote, if any. */
  datatype Round = Round(cloud: Cloud, requeue: bool, ending: Ending, report: Option<NodePoolInfo>)

  function Needed(t: Tally, size: int): int {
    if size - t.running - t.starting < 0 then 0 else size - t.running - t.starting
  }

  function UnNeeded(t: Tally, size: int): int {
    if t.running + t.starting - size < 0 then 0 else t.running + t.starting - size
  }

  function NodeIDs(nodes: seq<Node>): seq<nat> {
    seq(|nodes|, i requires 0 <= i < |nodes| => nodes[i].id)
  }

  /** Calls i..n of the creating loop, which ends at the first error. */
  function CreateLoop(c: Cloud, prefix: string, calls: nat -> Call, i: nat, n: nat): (Cloud, Ending)
    requires i <= n
    decreases n - i
  {
    if i == n then (c, Fine)
    else if !calls(i).ok then (Create(c, prefix, calls(i)), Failed)
    else CreateLoop(Create(c, prefix, calls(i)), prefix, calls, i + 1, n)
  }

  /** Calls i..n of a deleting loop over the listed ids. */
  function DeleteLoop(c: Cloud, ids: seq<nat>, calls: nat -> Call, i: nat, n: nat): (Cloud, Ending)
    requires i <= n
    decreases n - i
  {
    if i == n then (c, Fine)
    else if i >= |ids| then (c, OutOfBounds)
    else if DeleteFails(c, ids[i], calls(i)) then (Delete(c, ids[i], calls(i)), Failed)
    else DeleteLoop(Delete(c, ids[i], calls(i)), ids, calls, i + 1, n)
  }

  function Report(pool: NodePool, t: Tally): NodePoolInfo {
    NodePoolInfo(pool.name, pool.size, t.running + t.starting, t.running, t.running)
  }

  function PoolRound(c: Cloud, terminating: bool, spec: Spec, env: PoolEnv): Round {
    if !env.listed then Round(c, false, Failed, None)
    else
      var listing := env.order(Listed(c, spec.Prefix()));
      var t := Count(listing);
      var size := spec.pool.size;
      if terminating then
        var r := DeleteLoop(c, NodeIDs(listing), env.calls, 0, |listing|);
        Round(r.0, listing != [], r.1, None)
      else if Needed(t, size) > 0 then
        var r := CreateLoop(c, spec.Prefix(), env.calls, 0, Needed(t, size));
        Round(r.0, true, r.1, None)
      else if UnNeeded(t, size) > 0 then
        var r := DeleteLoop(c, NodeIDs(listing), env.calls, 0, UnNeeded(t, size));
        Round(r.0, true, r.1, None)
      else
        Round(c, t.Pending() > 0, if env.saved then Fine else Failed, Some(Report(spec.pool, t)))
  }

  /** The order in which Nova lists VMs changes nothing else about them. */
  ghost predicate Permutes(order: seq<Node> -> seq<Node>) {
    forall nodes {:trigger order(nodes)} :: multiset(order(nodes)) == multiset(nodes)
  }

  lemma {:induction false} CountPermuted(a: seq<Node>, b: seq<Node>)
    requires multiset(a) == multiset(b)
    ensures Count(a) == Count(b) && |a| == |b|
    decreases |a|
  {
    hide TallyOf, Count;
    assert |multiset(a)| == |a| && |multiset(b)| == |b|;
    if a != [] {
      var j := DropLast(a, b);
      CountPermuted(a[..|a| - 1], b[..j] + b[j + 1..]);
      CountSplit(a, |a| - 1);
      CountSplit(b, j);
      assert a[..|a| - 1] + a[|a|..] == a[..|a| - 1];
    }
  }

  /** One VM counts for itself. */
  lemma CountSplit(nodes: seq<Node>, j: nat)
    requires j < |nodes|
    ensures Count(nodes) == Plus(Count(nodes[..j] + nodes[j + 1..]), TallyOf(nodes[j]))
  {
    hide TallyOf, Count;
    assert nodes == nodes[..j] + [nodes[j]] + nodes[j + 1..];
    CountAppend(nodes[..j] + [nodes[j]], nodes[j + 1..]);
    CountAppend(nodes[..j], [nodes[j]]);
    CountAppend(nodes[..j], nodes[j + 1..]);
    CountOne(nodes[j]);
  }

  /** What a round counts is what there is to list. */
  lemma ListingCounts(c: Cloud, spec: Spec, env: PoolEnv)
    requires Permutes(env.order)
    ensures Count(env.order(Listed(c, spec.Prefix()))) == Count(Listed(c, spec.Prefix()))
    ensures |env.order(Listed(c, spec.Prefix()))| == |Listed(c, spec.Prefix())|
  {
    CountPermuted(env.order(Listed(c, spec.Prefix())), Listed(c, spec.Prefix()));
  }

  // ----- No overshoot, no undershoot --------------------------------------------------------------------

  /** Replacing one VM changes the tally by that VM only. */
  lemma ReplaceTally(nodes: seq<Node>, id: nat, becomes: Node -> seq<Node>, keep: string -> bool)
    requires Present(nodes, id)
    ensures var n := nodes[Find(nodes, id)];
            Plus(CountIn(Replace(nodes, id, becomes), keep), CountIn([n], keep)) ==
            Plus(CountIn(nodes, keep), CountIn(becomes(n), keep))
  {
    hide CountIn;
    var i := Find(nodes, id);
    var n := nodes[i];
    CountInAppend(nodes[..i] + becomes(n), nodes[i + 1..], keep);
    CountInAppend(nodes[..i], becomes(n), keep);
    CountInAppend(nodes[..i] + [n], nodes[i + 1..], keep);
    CountInAppend(nodes[..i], [n], keep);
    assert nodes[..i] + [n] + nodes[i + 1..] == nodes;
  }

  /** One VM becomes another of the same name, or none. */
  lemma OneReplaced(nodes: seq<Node>, id: nat, becomes: Node -> seq<Node>, m: seq<Node>, keep: string -> bool)
    requires Present(nodes, id) && becomes(nodes[Find(nodes, id)]) == m
    requires m == [] || (|m| == 1 && m[0].name == nodes[Find(nodes, id)].name)
    ensures var n := nodes[Find(nodes, id)];
            var after := CountIn(Replace(nodes, id, becomes), keep);
            if keep(n.name) then Plus(after, TallyOf(n)) == Plus(CountIn(nodes, keep), Count(m))
            else after == CountIn(nodes, keep)
  {
    var n := nodes[Find(nodes, id)];
    var after, before := CountIn(Replace(nodes, id, becomes), keep), CountIn(nodes, keep);
    ReplaceTally(nodes, id, becomes, keep);
    assert Plus(after, CountIn([n], keep)) == Plus(before, CountIn(m, keep));
    CountInOne(n, keep);
    CountInBecome(n, m, keep);
    hide TallyOf, Present, Replace, CountIn, Count;
    PlusNothing(after);
    PlusNothing(before);
  }

  lemma PlusNothing(t: Tally)
    ensures Plus(t, Tally(0, 0, 0, 0)) == t
  {
  }

  lemma CountInBecome(n: Node, m: seq<Node>, keep: string -> bool)
    requires m == [] || (|m| == 1 && m[0].name == n.name)
    ensures CountIn(m, keep) == if keep(n.name) then Count(m) else Tally(0, 0, 0, 0)
  {
    hide TallyOf, CountIn, Count;
    if m == [] {
      CountInNone(keep);
      CountNone();
    } else {
      assert m == [m[0]];
      CountInOne(m[0], keep);
      CountOne(m[0]);
    }
  }

  lemma NotThere(nodes: seq<Node>, id: nat, becomes: Node -> seq<Node>)
    ensures !Present(nodes, id) ==> Replace(nodes, id, becomes) == nodes
  {
  }

  /** How often a VM breaks by itself. */
  function BreakCount(drift: seq<Drift>): nat {
    if drift == [] then 0
    else BreakCount(drift[..|drift| - 1]) + if drift[|drift| - 1].Breaks? then 1 else 0
  }

  /** How often that happens during the calls that a deleting loop makes. */
  function BreaksDuring(c: Cloud, ids: seq<nat>, calls: nat -> Call, i: nat, n: nat): nat
    requires i <= n
    decreases n - i
  {
    if i == n || i >= |ids| then 0
    else if DeleteFails(c, ids[i], calls(i)) then BreakCount(calls(i).drift)
    else BreakCount(calls(i).drift) + BreaksDuring(Delete(c, ids[i], calls(i)), ids, calls, i + 1, n)
  }

  /** The tally of the VMs that the cloud turns a VM into. */
  lemma Transitions(n: Node)
    ensures forall stage :: TallyOf(InStage(n, stage)) == Tally(0, 1, 0, 0)
    ensures TallyOf(Booted(n)) == Tally(1, 0, 0, 0)
    ensures TallyOf(Broken(n)) == Tally(0, 0, 0, 1)
    ensures TallyOf(Deleting(n)) == Tally(0, 0, 1, 0)
    ensures n.Starting() <==> TallyOf(n) == Tally(0, 1, 0, 0)
    ensures n.Stopping() <==> TallyOf(n) == Tally(0, 0, 1, 0)
    ensures n.Running() <==> TallyOf(n) == Tally(1, 0, 0, 0)
    ensures TallyOf(n) in {Tally(1, 0, 0, 0), Tally(0, 1, 0, 0), Tally(0, 0, 1, 0), Tally(0, 0, 0, 1)}
  {
  }

  lemma DriftOneTally(nodes: seq<Node>, d: Drift, keep: string -> bool)
    ensures CountIn(DriftOne(nodes, d), keep).Active() <= CountIn(nodes, keep).Active()
    ensures CountIn(nodes, keep).Active() <=
            CountIn(DriftOne(nodes, d), keep).Active() + if d.Breaks? then 1 else 0
  {
    hide TallyOf, CountIn, Count, Present, InStage, Booted, Broken, Replace, Find;
    match d
    case Builds(id, stage) =>
      Drifts(nodes, id, (n: Node) => if n.Starting() then [InStage(n, stage)] else [n], stage, false, keep);
    case Boots(id) => Drifts(nodes, id, (n: Node) => if n.Starting() then [Booted(n)] else [n], Waiting, false, keep);
    case Vanishes(id) => Drifts(nodes, id, (n: Node) => if n.Stopping() then [] else [n], Waiting, false, keep);
    case Breaks(id) => Drifts(nodes, id, (n: Node) => [Broken(n)], Waiting, true, keep);
  }

  /** A VM gets to a stage, boots, vanishes or breaks, or stays as it is. */
  lemma Drifts(nodes: seq<Node>, id: nat, becomes: Node -> seq<Node>, stage: Stage, breaks: bool,
               keep: string -> bool)
    requires forall n {:trigger becomes(n)} ::
               || becomes(n) == [n] || (breaks && becomes(n) == [Broken(n)])
               || (n.Starting() && becomes(n) == [InStage(n, stage)])
               || (n.Starting() && becomes(n) == [Booted(n)]) || (n.Stopping() && becomes(n) == [])
    ensures var before, after := CountIn(nodes, keep), CountIn(Replace(nodes, id, becomes), keep);
            after.Active() <= before.Active() <= after.Active() + if breaks then 1 else 0
  {
    hide TallyOf, CountIn, Count, Present, InStage, Booted, Broken, Replace, Find;
    NotThere(nodes, id, becomes);
    if Present(nodes, id) {
      var n := nodes[Find(nodes, id)];
      Transitions(n);
      SameName(n);
      CountOne(n);
      CountOne(InStage(n, stage));
      CountOne(Booted(n));
      CountOne(Broken(n));
      CountNone();
      OneReplaced(nodes, id, becomes, becomes(n), keep);
    }
  }

  lemma SameName(n: Node)
    ensures Booted(n).name == Broken(n).name == Deleting(n).name == n.name
    ensures forall stage :: InStage(n, stage).name == n.name
  {
  }

  lemma {:induction false} DriftTally(nodes: seq<Node>, drift: seq<Drift>, keep: string -> bool)
    ensures CountIn(Drifted(nodes, drift), keep).Active() <= CountIn(nodes, keep).Active()
    ensures CountIn(nodes, keep).Active() <= CountIn(Drifted(nodes, drift), keep).Active() + BreakCount(drift)
    decreases |drift|
  {
    hide CountIn, DriftOne;
    if drift != [] {
      var before := drift[..|drift| - 1];
      DriftTally(nodes, before, keep);
      DriftOneTally(Drifted(nodes, before), drift[|drift| - 1], keep);
    }
  }

  lemma CreateTally(c: Cloud, prefix: string, call: Call, keep: string -> bool)
    ensures CountIn(Create(c, prefix, call).nodes, keep).Active() <= CountIn(c.nodes, keep).Active() + 1
  {
    var n := Created(c.nextID, prefix, call.suffix);
    var nodes := Drifted(c.nodes, call.drift);
    hide TallyOf, CountIn, Drifted, Created;
    DriftTally(c.nodes, call.drift, keep);
    CreatedStarts(c.nextID, prefix, call.suffix);
    CountInAppend(nodes, [n], keep);
    CountInOne(n, keep);
  }

  lemma CreatedStarts(id: nat, prefix: string, suffix: Suffix)
    ensures TallyOf(Created(id, prefix, suffix)) == Tally(0, 1, 0, 0)
    ensures Created(id, prefix, suffix).name == GenerateName(prefix, suffix)
  {
  }

  lemma DeleteTally(c: Cloud, id: nat, call: Call, keep: string -> bool)
    ensures CountIn(c.nodes, keep).Active() <=
            CountIn(Delete(c, id, call).nodes, keep).Active() + 1 + BreakCount(call.drift)
    ensures CountIn(Delete(c, id, call).nodes, keep).Active() <= CountIn(c.nodes, keep).Active()
  {
    hide TallyOf, CountIn, Count, Drifted, Present;
    DriftTally(c.nodes, call.drift, keep);
    var becomes := (n: Node) => if call.atOnce then [] else [Deleting(n)];
    var nodes := Drifted(c.nodes, call.drift);
    NotThere(nodes, id, becomes);
    if Present(nodes, id) {
      var n := nodes[Find(nodes, id)];
      Transitions(n);
      CountOne(Deleting(n));
      CountNone();
      OneReplaced(nodes, id, becomes, becomes(n), keep);
      hide Replace;
    }
  }

  lemma {:induction false} CreateLoopBound(c: Cloud, prefix: string, calls: nat -> Call, i: nat, n: nat,
                                           keep: string -> bool)
    requires i <= n
    ensures CountIn(CreateLoop(c, prefix, calls, i, n).0.nodes, keep).Active() <=
            CountIn(c.nodes, keep).Active() + (n - i)
    decreases n - i
  {
    hide CountIn, Create, Drifted;
    if i < n {
      CreateTally(c, prefix, calls(i), keep);
      if calls(i).ok { CreateLoopBound(Create(c, prefix, calls(i)), prefix, calls, i + 1, n, keep); }
    }
  }

  lemma {:induction false} DeleteLoopBound(c: Cloud, ids: seq<nat>, calls: nat -> Call, i: nat, n: nat,
                                           keep: string -> bool)
    requires i <= n
    ensures CountIn(c.nodes, keep).Active() <=
            CountIn(DeleteLoop(c, ids, calls, i, n).0.nodes, keep).Active() + (n - i) +
            BreaksDuring(c, ids, calls, i, n)
    decreases n - i
  {
    hide CountIn, Delete, DeleteFails, BreakCount;
    if i < n && i < |ids| {
      DeleteTally(c, ids[i], calls(i), keep);
      if !DeleteFails(c, ids[i], calls(i)) { DeleteLoopBound(Delete(c, ids[i], calls(i)), ids, calls, i + 1, n, keep); }
    }
  }

  /** How many VMs run or start among those listed for a prefix. */
  function ActiveIn(c: Cloud, prefix: string): nat {
    Count(Listed(c, prefix)).Active()
  }

  /**
   From an accurate listing, after each single create call, however it ended and whatever the
   VMs did meanwhile, no more than size VMs run or start.
   */
  lemma NeverOvershoots(c: Cloud, spec: Spec, calls: nat -> Call, made: nat)
    requires var needed := Needed(Count(Listed(c, spec.Prefix())), spec.pool.size); made <= needed && needed > 0
    ensures ActiveIn(CreateLoop(c, spec.Prefix(), calls, 0, made).0, spec.Prefix()) <= spec.pool.size
  {
    SameFilter(c, spec.Prefix(), calls, 0, made);
    hide CreateLoop, Count;
    CreateLoopBound(c, spec.Prefix(), calls, 0, made, Keep(c.anywhere, spec.Prefix()));
  }

  lemma {:induction false} SameFilter(c: Cloud, prefix: string, calls: nat -> Call, i: nat, n: nat)
    requires i <= n
    ensures CreateLoop(c, prefix, calls, i, n).0.anywhere == c.anywhere
    decreases n - i
  {
    if i < n { SameFilter(Create(c, prefix, calls(i)), prefix, calls, i + 1, n); }
  }

  lemma {:induction false} SameFilterDeleting(c: Cloud, ids: seq<nat>, calls: nat -> Call, i: nat, n: nat)
    requires i <= n
    ensures DeleteLoop(c, ids, calls, i, n).0.anywhere == c.anywhere
    decreases n - i
  {
    hide Replace, Drifted, DeleteFails;
    if i < n && i < |ids| { SameFilterDeleting(Delete(c, ids[i], calls(i)), ids, calls, i + 1, n); }
  }

  /** After each single delete call no fewer than size VMs run or start, but for those that broke by themselves. */
  lemma NeverUndershoots(c: Cloud, spec: Spec, ids: seq<nat>, calls: nat -> Call, made: nat)
    requires var unNeeded := UnNeeded(Count(Listed(c, spec.Prefix())), spec.pool.size);
             made <= unNeeded && unNeeded > 0
    ensures ActiveIn(DeleteLoop(c, ids, calls, 0, made).0, spec.Prefix()) +
            BreaksDuring(c, ids, calls, 0, made) >= spec.pool.size
  {
    SameFilterDeleting(c, ids, calls, 0, made);
    hide DeleteLoop, Count, BreaksDuring;
    DeleteLoopBound(c, ids, calls, 0, made, Keep(c.anywhere, spec.Prefix()));
  }

  lemma {:induction false} DeleteLoopInBounds(c: Cloud, ids: seq<nat>, calls: nat -> Call, i: nat, n: nat)
    requires i <= n <= |ids|
    ensures DeleteLoop(c, ids, calls, i, n).1 != OutOfBounds
    decreases n - i
  {
    hide Delete, DeleteFails;
    if i < n && !DeleteFails(c, ids[i], calls(i)) {
      DeleteLoopInBounds(Delete(c, ids[i], calls(i)), ids, calls, i + 1, n);
    }
  }

  ghost predicate MayRunOut(size: int) {
    exists c: Cloud, spec: Spec, terminating: bool, env: PoolEnv ::
      spec.pool.size == size && Permutes(env.order) && PoolRound(c, terminating, spec, env).ending == OutOfBounds
  }

  /** The index into the listed VMs stays in bounds for every listing exactly when size is not negative. */
  lemma IndexInBoundsIff(size: int)
    ensures MayRunOut(size) <==> size < 0
  {
    if size < 0 {
      var c := Cloud([], 0, false);
      var env := PoolEnv(true, nodes => nodes, (k: nat) => Call([], true, true, true, "bbbbb"), true);
      var spec := Spec("", NodePool("", "", "", size, NodePoolConfig(false, false)));
      assert Listed(c, spec.Prefix()) == [];
      assert PoolRound(c, false, spec, env).ending == OutOfBounds;
    } else {
      forall c: Cloud, spec: Spec, terminating: bool, env: PoolEnv | spec.pool.size == size && Permutes(env.order)
        ensures PoolRound(c, terminating, spec, env).ending != OutOfBounds
      {
        RoundInBounds(c, terminating, spec, env);
      }
    }
  }

  lemma RoundInBounds(c: Cloud, terminating: bool, spec: Spec, env: PoolEnv)
    requires spec.pool.size >= 0
    ensures PoolRound(c, terminating, spec, env).ending != OutOfBounds
  {
    hide Count, CreateLoop, DeleteLoop;
    var listing := env.order(Listed(c, spec.Prefix()));
    var t := Count(listing);
    CountBound(listing);
    if terminating {
      DeleteLoopInBounds(c, NodeIDs(listing), env.calls, 0, |listing|);
    } else if Needed(t, spec.pool.size) > 0 {
      CreateLoopInBounds(c, spec.Prefix(), env.calls, 0, Needed(t, spec.pool.size));
    } else if UnNeeded(t, spec.pool.size) > 0 {
      DeleteLoopInBounds(c, NodeIDs(listing), env.calls, 0, UnNeeded(t, spec.pool.size));
    }
  }

  lemma {:induction false} CreateLoopInBounds(c: Cloud, prefix: string, calls: nat -> Call, i: nat, n: nat)
    requires i <= n
    ensures CreateLoop(c, prefix, calls, i, n).1 != OutOfBounds
    decreases n - i
  {
    hide Create;
    if i < n && calls(i).ok {
      CreateLoopInBounds(Create(c, prefix, calls(i)), prefix, calls, i + 1, n);
    }
  }

  /** What a pool should list: its size of running VMs and none on its way, or nothing. */
  predicate Reached(listed: seq<Node>, terminating: bool, size: int) {
    if terminating then listed == [] else Count(listed).running == size && Count(listed).Pending() == 0
  }

  /** A pool that lists that is left alone. */
  lemma RestingRound(c: Cloud, spec: Spec, env: PoolEnv)
    requires env.listed && env.saved && Permutes(env.order)
    requires Reached(Listed(c, spec.Prefix()), false, spec.pool.size)
    ensures var r := PoolRound(c, false, spec, env); !r.requeue && r.ending == Fine && r.cloud == c
  {
    hide Count, Select, CreateLoop, DeleteLoop, Permutes;
    ListingCounts(c, spec, env);
  }

  /** A quiet round listed what it wanted: the pool's size of running VMs, or no VM at all. */
  lemma QuietRound(c: Cloud, terminating: bool, spec: Spec, env: PoolEnv)
    requires Permutes(env.order)
    requires var r := PoolRound(c, terminating, spec, env); !r.requeue && r.ending == Fine
    ensures PoolRound(c, terminating, spec, env).cloud == c
    ensures Reached(Listed(c, spec.Prefix()), terminating, spec.pool.size)
  {
    ListingCounts(c, spec, env);
    hide Count, Listed;
  }
}
