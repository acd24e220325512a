/**
 A kluster's record and its VMs together. The launch controller reports what it lists, the terminate
 request trusts that report, and the ground controller deletes the record without looking at VMs.
 */
module LeftoverNodes {
  import opened Common
  import opened Klusters
  import opened PoolNames
  import opened NodePools
  import opened Lifecycle
  import opened LifecycleProofs
  import opened LifecycleTheorems
  import opened LifecycleTeardown
  import opened LifecycleStaleRuns

  // ----- The joint protocol -----------------------------------------------------------------------

  /** A status that a round hands to SetStatus, and the first VM id not yet in use when it was listed. */
  datatype Told = Told(info: NodePoolInfo, nextID: nat)

  /** What the launch worker that owns the kluster's key will do next, for the version it took. */
  datatype Launch = Free | Busy(v: Kluster, i: nat) | Telling(v: Kluster, i: nat, info: NodePoolInfo)

  datatype Joint = Joint(record: State, cloud: Cloud, launch: Launch, told: seq<Told>)

  datatype Step =
    | Acts(e: Event)                 // anything that the launch controller has no part in
    | Takes(cached: nat)             // the launch worker takes the key, with a cached version
    | Reconciles(env: PoolEnv)       // ... and does a round for the next pool
    | Tells(id: nat)                 // SetStatus does its Get; its Update is the event Finish(id)
    | GivesUp                        // a call failed
    | DriftsOn(drift: seq<Drift>)    // what VMs do on their own

  function Start(k: Kluster, domain: string, anywhere: bool): Joint {
    Joint(Lifecycle.Created(k, domain), Cloud([], 0, anywhere), Free, [])
  }

  predicate OfLaunch(e: Event) {
    e.Begin? && e.writer.PoolStatus?
  }

  /** One pool's round; the status it reports is yet to be written. */
  function RoundNext(j: Joint, env: PoolEnv): Joint {
    match j.launch
    case Busy(v, i) =>
      if i >= |v.spec.nodePools| then j.(launch := Free)
      else
        var r := PoolRound(j.cloud, v.status.phase == Terminating, Spec(v.spec.name, v.spec.nodePools[i]), env);
        (match r.report
         case Some(info) =>
           j.(cloud := r.cloud, launch := Telling(v, i + 1, info), told := j.told + [Told(info, j.cloud.nextID)])
         case None => j.(cloud := r.cloud, launch := if r.ending == Fine then Busy(v, i + 1) else Free))
    case _ => j
  }

  function Take(j: Joint, cached: nat): Joint {
    if j.launch != Free || cached >= |j.record.hist| then j
    else
      var v := j.record.hist[cached];
      if v.status.phase == Running || v.status.phase == Terminating then j.(launch := Busy(v, 0)) else j
  }

  function JointNext(j: Joint, s: Step): Joint {
    match s
    case Acts(e) => if OfLaunch(e) then j else j.(record := Next(j.record, e))
    case Takes(cached) => Take(j, cached)
    case Reconciles(env) => RoundNext(j, env)
    case Tells(id) =>
      (match j.launch
       case Telling(v, i, info) =>
         j.(record := Next(j.record, Begin(id, Writer.PoolStatus(info), 0)), launch := Busy(v, i))
       case _ => j)
    case GivesUp => j.(launch := Free)
    case DriftsOn(drift) => j.(cloud := j.cloud.(nodes := Drifted(j.cloud.nodes, drift)))
  }

  function After(j: Joint, steps: seq<Step>): Joint {
    if steps == [] then j else JointNext(After(j, steps[..|steps| - 1]), steps[|steps| - 1])
  }

  lemma AfterSnoc(j: Joint, steps: seq<Step>, s: Step)
    ensures After(j, steps + [s]) == JointNext(After(j, steps), s)
  {
    assert (steps + [s])[..|steps + [s]| - 1] == steps;
  }

  /** Nova lists VMs in any order. */
  ghost predicate Ordered(steps: seq<Step>) {
    forall s <- steps :: s.Reconciles? ==> Permutes(s.env.order)
  }

  predicate Updates(s: Step) {
    s.Acts? && s.e.Begin? && s.e.writer.UpdateCluster?
  }

  ghost predicate NoUpdates(steps: seq<Step>) {
    forall s <- steps :: !Updates(s)
  }

  /** What happens to the record in a joint run is a run of the lifecycle protocol. */
  lemma {:induction false} RecordIsRun(k: Kluster, domain: string, anywhere: bool, steps: seq<Step>)
    returns (es: seq<Event>)
    ensures After(Start(k, domain, anywhere), steps).record == Run(k, domain, es)
    decreases |steps|
  {
    hide Next, PoolRound, Drifted;
    if steps == [] {
      es := [];
    } else {
      var j, s := After(Start(k, domain, anywhere), steps[..|steps| - 1]), steps[|steps| - 1];
      es := RecordIsRun(k, domain, anywhere, steps[..|steps| - 1]);
      var e := RecordStep(j, s);
      if e.Some? {
        ExecSnoc(Lifecycle.Created(k, domain), es, e.value);
        es := es + [e.value];
      }
    }
  }

  /** The event that a step is for the record, if any. */
  function EventOf(j: Joint, s: Step): Option<Event> {
    match s
    case Acts(e) => if OfLaunch(e) then None else Some(e)
    case Tells(id) => if j.launch.Telling? then Some(Begin(id, Writer.PoolStatus(j.launch.info), 0)) else None
    case _ => None
  }

  lemma RecordStep(j: Joint, s: Step) returns (e: Option<Event>)
    ensures e == EventOf(j, s)
    ensures JointNext(j, s).record == if e.Some? then Next(j.record, e.value) else j.record
  {
    hide Next, PoolRound, Drifted;
    e := EventOf(j, s);
  }

  // ----- VMs do not come back to life -----------------------------------------------------------------

  predicate Active(n: Node) {
    n.Starting() || n.Running()
  }

  /** None of the VMs listed by a name that existed at some time runs or starts. */
  predicate NoneOld(nodes: seq<Node>, keep: string -> bool, nextID: nat) {
    forall n <- nodes :: keep(n.name) && n.id < nextID ==> !Active(n)
  }

  predicate Fades(n: Node, m: seq<Node>) {
    m == [] || (|m| == 1 && m[0].id == n.id && m[0].name == n.name && (Active(m[0]) ==> Active(n)))
  }

  lemma ReplaceFades(nodes: seq<Node>, id: nat, becomes: Node -> seq<Node>, keep: string -> bool, nextID: nat)
    requires NoneOld(nodes, keep, nextID)
    requires forall n {:trigger becomes(n)} :: Fades(n, becomes(n))
    ensures NoneOld(Replace(nodes, id, becomes), keep, nextID)
  {
    hide Active;
    if Present(nodes, id) {
      var i := Find(nodes, id);
      assert Fades(nodes[i], becomes(nodes[i]));
    }
  }

  lemma DriftFades(nodes: seq<Node>, d: Drift, keep: string -> bool, nextID: nat)
    requires NoneOld(nodes, keep, nextID)
    ensures NoneOld(DriftOne(nodes, d), keep, nextID)
  {
    hide NoneOld, Replace;
    match d
    case Builds(id, stage) =>
      ReplaceFades(nodes, id, (n: Node) => if n.Starting() then [InStage(n, stage)] else [n], keep, nextID);
    case Boots(id) =>
      ReplaceFades(nodes, id, (n: Node) => if n.Starting() then [Booted(n)] else [n], keep, nextID);
    case Vanishes(id) => ReplaceFades(nodes, id, (n: Node) => if n.Stopping() then [] else [n], keep, nextID);
    case Breaks(id) => ReplaceFades(nodes, id, (n: Node) => [Broken(n)], keep, nextID);
  }

  lemma {:induction false} DriftedFades(nodes: seq<Node>, drift: seq<Drift>, keep: string -> bool, nextID: nat)
    requires NoneOld(nodes, keep, nextID)
    ensures NoneOld(Drifted(nodes, drift), keep, nextID)
    decreases |drift|
  {
    hide NoneOld, DriftOne;
    if drift != [] {
      DriftedFades(nodes, drift[..|drift| - 1], keep, nextID);
      DriftFades(Drifted(nodes, drift[..|drift| - 1]), drift[|drift| - 1], keep, nextID);
    }
  }

  /** What calls may do to a cloud: ids only grow, and no VM that exists starts to run. */
  ghost predicate FadesInto(c: Cloud, d: Cloud) {
    && d.anywhere == c.anywhere && d.nextID >= c.nextID
    && forall keep: string -> bool, nextID: nat ::
         nextID <= c.nextID && NoneOld(c.nodes, keep, nextID) ==> NoneOld(d.nodes, keep, nextID)
  }

  lemma CreateFades(c: Cloud, prefix: string, call: Call)
    ensures FadesInto(c, Create(c, prefix, call))
  {
    hide Drifted, Active, GenerateName;
    forall keep: string -> bool, nextID: nat | nextID <= c.nextID && NoneOld(c.nodes, keep, nextID)
      ensures NoneOld(Create(c, prefix, call).nodes, keep, nextID)
    {
      DriftedFades(c.nodes, call.drift, keep, nextID);
    }
  }

  lemma DeleteFades(c: Cloud, id: nat, call: Call)
    ensures FadesInto(c, Delete(c, id, call))
  {
    hide Drifted, NoneOld, Replace;
    forall keep: string -> bool, nextID: nat | nextID <= c.nextID && NoneOld(c.nodes, keep, nextID)
      ensures NoneOld(Delete(c, id, call).nodes, keep, nextID)
    {
      DriftedFades(c.nodes, call.drift, keep, nextID);
      ReplaceFades(Drifted(c.nodes, call.drift), id, (n: Node) => if call.atOnce then [] else [Deleting(n)], keep,
        nextID);
    }
  }

  lemma {:induction false} CreateLoopFades(c: Cloud, prefix: string, calls: nat -> Call, i: nat, n: nat)
    requires i <= n
    ensures FadesInto(c, CreateLoop(c, prefix, calls, i, n).0)
    decreases n - i
  {
    hide Create, NoneOld;
    if i < n {
      CreateFades(c, prefix, calls(i));
      if calls(i).ok { CreateLoopFades(Create(c, prefix, calls(i)), prefix, calls, i + 1, n); }
    }
  }

  lemma {:induction false} DeleteLoopFades(c: Cloud, ids: seq<nat>, calls: nat -> Call, i: nat, n: nat)
    requires i <= n
    ensures FadesInto(c, DeleteLoop(c, ids, calls, i, n).0)
    decreases n - i
  {
    hide Delete, DeleteFails, NoneOld;
    if i < n && i < |ids| {
      DeleteFades(c, ids[i], calls(i));
      if !DeleteFails(c, ids[i], calls(i)) {
        DeleteLoopFades(Delete(c, ids[i], calls(i)), ids, calls, i + 1, n);
      }
    }
  }

  lemma RoundFades(c: Cloud, terminating: bool, spec: Spec, env: PoolEnv)
    ensures FadesInto(c, PoolRound(c, terminating, spec, env).cloud)
  {
    hide Count, CreateLoop, DeleteLoop, NoneOld, Listed;
    var listing := env.order(Listed(c, spec.Prefix()));
    var t := Count(listing);
    DeleteLoopFades(c, NodeIDs(listing), env.calls, 0, |listing|);
    CreateLoopFades(c, spec.Prefix(), env.calls, 0, Needed(t, spec.pool.size));
    DeleteLoopFades(c, NodeIDs(listing), env.calls, 0, UnNeeded(t, spec.pool.size));
  }

  // ----- What a report says ---------------------------------------------------------------------------

  lemma {:induction false} NoneActive(nodes: seq<Node>)
    requires Count(nodes).Active() == 0
    ensures forall n <- nodes :: !Active(n)
    decreases |nodes|
  {
    if nodes != [] {
      NoneActive(nodes[..|nodes| - 1]);
      assert forall n <- nodes :: n in nodes[..|nodes| - 1] || n == nodes[|nodes| - 1];
    }
  }

  lemma {:induction false} SelectHas(nodes: seq<Node>, keep: string -> bool)
    ensures forall n <- nodes :: keep(n.name) ==> n in Select(nodes, keep)
    decreases |nodes|
  {
    if nodes != [] {
      SelectHas(nodes[..|nodes| - 1], keep);
      assert forall n <- nodes :: n in nodes[..|nodes| - 1] || n == nodes[|nodes| - 1];
    }
  }

  /** A reported pool runs and starts as many VMs as it wants: none that is listed, for size zero. */
  lemma ReportedIsWanted(c: Cloud, terminating: bool, spec: Spec, env: PoolEnv)
    requires Permutes(env.order) && PoolRound(c, terminating, spec, env).report.Some?
    ensures var info := PoolRound(c, terminating, spec, env).report.value;
            && info.name == spec.pool.name && info.running == info.size == spec.pool.size >= 0
            && info.healthy == info.schedulable == Count(Listed(c, spec.Prefix())).running
    ensures spec.pool.size == 0 ==> NoneOld(c.nodes, Keep(c.anywhere, spec.Prefix()), c.nextID)
  {
    var keep := Keep(c.anywhere, spec.Prefix());
    ListingCounts(c, spec, env);
    SelectHas(c.nodes, keep);
    hide Select, Count, CreateLoop, DeleteLoop, Active, Keep, Permutes;
    if spec.pool.size == 0 { NoneActive(Listed(c, spec.Prefix())); }
  }

  // ----- What the guard of the terminate request relies on ---------------------------------------------

  predicate WasTold(told: seq<Told>, info: NodePoolInfo) {
    exists t <- told :: t.info == info
  }

  /** No pool was reported to have nodes yet. */
  predicate Unreported(k: Kluster) {
    forall info <- k.status.nodePools :: info.running == 0
  }

  predicate EntriesTold(k: Kluster, told: seq<Told>, v: Kluster) {
    && v.spec.name == k.spec.name && |v.status.nodePools| == |k.status.nodePools|
    && forall i :: 0 <= i < |v.status.nodePools| ==>
         v.status.nodePools[i] == k.status.nodePools[i] || WasTold(told, v.status.nodePools[i])
  }

  /** A report stays true of the VMs that it saw. */
  predicate Holds(kluster: string, c: Cloud, t: Told) {
    && t.info.running == t.info.size >= 0 && t.nextID <= c.nextID
    && (t.info.size == 0 ==> NoneOld(c.nodes, Keep(c.anywhere, Prefix(kluster, t.info.name)), t.nextID))
  }

  predicate WriterTold(told: seq<Told>, w: Writer) {
    w.PoolStatus? ==> WasTold(told, w.info)
  }

  ghost predicate RecordInv(k: Kluster, s: State, told: seq<Told>) {
    && Inv(s) && (forall v <- s.hist :: EntriesTold(k, told, v))
    && forall id <- s.inflight :: WriterTold(told, s.inflight[id].writer)
  }

  ghost predicate JointInv(k: Kluster, j: Joint) {
    && RecordInv(k, j.record, j.told)
    && (forall t <- j.told :: Holds(k.spec.name, j.cloud, t))
    && (j.launch != Free ==> j.launch.v.spec.name == k.spec.name)
    && (j.launch.Telling? ==> WasTold(j.told, j.launch.info))
  }

  lemma InflightNext(s: State, e: Event)
    ensures forall id <- Next(s, e).inflight ::
              (id in s.inflight && Next(s, e).inflight[id] == s.inflight[id]) ||
              (e.Begin? && Next(s, e).inflight[id].writer == e.writer)
  {
    hide Modify, Dispatch, MayBegin, AdvanceCreation, AdvanceTeardown;
    match e
    case Proceed(outcome) =>
      if Creation(s.task) { CreationFrame(s, outcome); }
      TeardownFrame(s, outcome);
    case _ =>
  }

  lemma EntriesNext(k: Kluster, told: seq<Told>, v: Kluster, w: Writer)
    requires EntriesTold(k, told, v) && WriterTold(told, w) && Modify(w, v).Some?
    ensures EntriesTold(k, told, Modify(w, v).value)
  {
    ModifyKeeps(w, v);
    hide WasTold, WithOpenstackInfo;
  }

  lemma RecordInvNext(k: Kluster, s: State, told: seq<Told>, e: Event)
    requires RecordInv(k, s, told) && (e.Begin? ==> WriterTold(told, e.writer))
    ensures RecordInv(k, Next(s, e), told)
  {
    hide Next, Inv, Modify, EntriesTold, OnlyOwnFields, Later;
    InvNext(s, e);
    StoredWriteFrame(s, e);
    InflightNext(s, e);
    var stored := StoredWrite(s, e);
    if stored.Some? {
      StoredWriter(s, e);
      hide StoredWrite;
      assert WriterTold(told, stored.value.writer) by { hide WriterTold; }
      EntriesNext(k, told, s.Current(), stored.value.writer);
    }
  }

  lemma StoredWriter(s: State, e: Event)
    requires Inv(s) && StoredWrite(s, e).Some?
    ensures |s.hist| > 0 && s.Current() in s.hist
    ensures var w := StoredWrite(s, e).value;
            GroundWriter(w.writer) || exists id <- s.inflight :: s.inflight[id] == w
  {
    hide HistInv, WriteOK, GroundWriter;
  }

  lemma MoreTold(k: Kluster, s: State, told: seq<Told>, t: Told)
    requires RecordInv(k, s, told)
    ensures RecordInv(k, s, told + [t]) && WasTold(told + [t], t.info)
    ensures forall info :: WasTold(told, info) ==> WasTold(told + [t], info)
  {
    hide Inv;
    assert (told + [t])[|told|] == t;
    assert forall x <- told :: x in told + [t];
  }

  lemma StillHolds(kluster: string, c: Cloud, d: Cloud, told: seq<Told>)
    requires FadesInto(c, d) && forall t <- told :: Holds(kluster, c, t)
    ensures forall t <- told :: Holds(kluster, d, t)
  {
    hide NoneOld, Prefix;
  }

  lemma RoundKeeps(k: Kluster, j: Joint, env: PoolEnv)
    requires JointInv(k, j) && Permutes(env.order)
    ensures JointInv(k, RoundNext(j, env))
  {
    if j.launch.Busy? && j.launch.i < |j.launch.v.spec.nodePools| {
      var v := j.launch.v;
      var spec, terminating := Spec(v.spec.name, v.spec.nodePools[j.launch.i]), v.status.phase == Terminating;
      var r := PoolRound(j.cloud, terminating, spec, env);
      RoundFades(j.cloud, terminating, spec, env);
      StillHolds(k.spec.name, j.cloud, r.cloud, j.told);
      if r.report.Some? {
        var t := Told(r.report.value, j.cloud.nextID);
        MoreTold(k, j.record, j.told, t);
        ReportedIsWanted(j.cloud, terminating, spec, env);
        hide PoolRound, Permutes, RecordInv, NoneOld, WasTold;
        assert Holds(k.spec.name, r.cloud, t);
      }
    }
    hide PoolRound, Permutes, RecordInv, Holds, WasTold, FadesInto;
  }

  lemma JointInvNext(k: Kluster, j: Joint, s: Step)
    requires JointInv(k, j) && (s.Reconciles? ==> Permutes(s.env.order))
    ensures JointInv(k, JointNext(j, s))
  {
    match s
    case Acts(e) =>
      if !OfLaunch(e) { RecordInvNext(k, j.record, j.told, e); }
      hide RecordInv, Holds, Next;
    case Takes(cached) =>
      if cached < |j.record.hist| { assert EntriesTold(k, j.told, j.record.hist[cached]); }
      hide RecordInv, Holds;
    case Reconciles(env) =>
      RoundKeeps(k, j, env);
    case Tells(id) =>
      if j.launch.Telling? {
        RecordInvNext(k, j.record, j.told, Begin(id, Writer.PoolStatus(j.launch.info), 0));
      }
      hide RecordInv, Holds, Next;
    case GivesUp => hide RecordInv, Holds;
    case DriftsOn(drift) =>
      var d := j.cloud.(nodes := Drifted(j.cloud.nodes, drift));
      forall keep: string -> bool, nextID: nat | NoneOld(j.cloud.nodes, keep, nextID)
        ensures NoneOld(d.nodes, keep, nextID)
      {
        DriftedFades(j.cloud.nodes, drift, keep, nextID);
      }
      StillHolds(k.spec.name, j.cloud, d, j.told);
      hide RecordInv, Holds, Drifted;
  }

  lemma {:induction false} JointInvAlways(k: Kluster, domain: string, anywhere: bool, steps: seq<Step>)
    requires k.status.phase == Pending && Ordered(steps)
    ensures JointInv(k, After(Start(k, domain, anywhere), steps))
    decreases |steps|
  {
    hide JointInv, JointNext, Permutes;
    if steps == [] {
      StartInv(k, domain, anywhere);
    } else {
      var before := steps[..|steps| - 1];
      assert forall s <- before :: s in steps;
      JointInvAlways(k, domain, anywhere, before);
      JointInvNext(k, After(Start(k, domain, anywhere), before), steps[|steps| - 1]);
    }
  }

  lemma StartInv(k: Kluster, domain: string, anywhere: bool)
    requires k.status.phase == Pending
    ensures JointInv(k, Start(k, domain, anywhere))
  {
    InvAlways(k, domain, []);
    hide Inv;
  }

  /** The first VM id not in use when the pool of this entry was last seen to have no nodes. */
  ghost predicate SeenEmpty(k: Kluster, j: Joint, info: NodePoolInfo) {
    exists t <- j.told ::
      t.info == info && NoneOld(j.cloud.nodes, Keep(j.cloud.anywhere, Prefix(k.spec.name, info.name)), t.nextID)
  }

  /**
   The terminate request's guard lets a version pass exactly if each of its pools was never reported or
   was last reported at size zero; every VM that such a report's pool lists and that runs or starts
   by now was created after that report.
   */
  lemma GuardPassesIff(k: Kluster, domain: string, anywhere: bool, steps: seq<Step>, g: nat)
    requires k.status.phase == Pending && Unreported(k) && Ordered(steps)
    requires g < |After(Start(k, domain, anywhere), steps).record.hist|
    ensures var j := After(Start(k, domain, anywhere), steps);
            var infos := j.record.hist[g].status.nodePools;
            && |infos| == |k.status.nodePools|
            && (NoNodesRunning(j.record.hist[g]) <==>
                  forall i :: 0 <= i < |infos| ==> infos[i] == k.status.nodePools[i] || infos[i].size == 0)
            && (NoNodesRunning(j.record.hist[g]) ==>
                  forall info <- infos :: info in k.status.nodePools || SeenEmpty(k, j, info))
  {
    JointInvAlways(k, domain, anywhere, steps);
    var j := After(Start(k, domain, anywhere), steps);
    hide After, Inv, NoneOld;
    var infos := j.record.hist[g].status.nodePools;
    assert EntriesTold(k, j.told, j.record.hist[g]);
    forall i | 0 <= i < |infos| && infos[i] != k.status.nodePools[i]
      ensures infos[i].running == infos[i].size >= 0
      ensures infos[i].running == 0 ==> SeenEmpty(k, j, infos[i])
    {
      assert WasTold(j.told, infos[i]);
      var t :| t in j.told && t.info == infos[i];
      assert Holds(k.spec.name, j.cloud, t);
    }
  }

  // ----- VMs that outlive the record --------------------------------------------------------------------

  /** The record is deleted while the project still holds VMs. */
  predicate Leaves(j: Joint, e: Event) {
    Deletes(j.record, e) && j.cloud.nodes != []
  }

  /** A step without any failure, taken with the current version of the record. */
  ghost predicate Smooth(j: Joint, s: Step) {
    match s
    case Acts(Begin(_, _, guard)) => guard + 1 == |j.record.hist|
    case Acts(Finish(_, outcome)) => outcome == Done
    case Acts(Handle(cached, _)) => cached + 1 == |j.record.hist|
    case Acts(Proceed(outcome)) => outcome == Done
    case Takes(cached) => cached + 1 == |j.record.hist|
    case Reconciles(env) => env.listed && env.saved && forall i :: env.calls(i).ok && env.calls(i).drift == []
    case GivesUp => false
    case _ => true
  }

  ghost predicate AllSmooth(j: Joint, steps: seq<Step>) {
    steps == [] || (AllSmooth(j, steps[..|steps| - 1]) && Smooth(After(j, steps[..|steps| - 1]), steps[|steps| - 1]))
  }

  /** Some run without update requests deletes the kluster's record and leaves VMs that it created. */
  ghost predicate CanLeave(k: Kluster, domain: string, anywhere: bool, smooth: bool) {
    exists steps: seq<Step>, e: Event ::
      && NoUpdates(steps) && Ordered(steps)
      && Leaves(After(Start(k, domain, anywhere), steps), e)
      && (smooth ==> AllSmooth(Start(k, domain, anywhere), steps) && e == Proceed(Done))
  }

  /** Pool i wants nodes, and no pool before it ends the reconciliation by its negative size. */
  predicate Reachable(pools: seq<NodePool>, i: nat) {
    i < |pools| && pools[i].size > 0 && forall m :: 0 <= m < i ==> pools[m].size >= 0
  }

  // ----- ... never come from pools that want none ---------------------------------------------------------

  ghost predicate RecordBare(k: Kluster, s: State) {
    && Inv(s) && (forall v <- s.hist :: v.spec.nodePools == k.spec.nodePools)
    && forall id <- s.inflight :: !s.inflight[id].writer.UpdateCluster?
  }

  /** The launch worker is not past a pool of negative size, unless it is deleting. */
  predicate Stuck(k: Kluster, v: Kluster, i: nat) {
    && v.spec.nodePools == k.spec.nodePools
    && (v.status.phase == Terminating ||
        forall m :: 0 <= m < i && m < |v.spec.nodePools| ==> v.spec.nodePools[m].size >= 0)
  }

  ghost predicate Bare(k: Kluster, j: Joint) {
    && RecordBare(k, j.record) && j.cloud.nodes == []
    && (j.launch != Free ==> Stuck(k, j.launch.v, j.launch.i))
  }

  lemma RecordBareNext(k: Kluster, s: State, e: Event)
    requires RecordBare(k, s) && !(e.Begin? && e.writer.UpdateCluster?)
    ensures RecordBare(k, Next(s, e))
  {
    hide Next, Inv, Modify, Later;
    InvNext(s, e);
    StoredWriteFrame(s, e);
    InflightNext(s, e);
    if StoredWrite(s, e).Some? {
      StoredWriter(s, e);
      hide StoredWrite;
    }
  }

  lemma RoundStaysBare(k: Kluster, j: Joint, env: PoolEnv)
    requires Bare(k, j) && Permutes(env.order) && !exists i :: Reachable(k.spec.nodePools, i)
    ensures Bare(k, RoundNext(j, env))
  {
    if j.launch.Busy? && j.launch.i < |j.launch.v.spec.nodePools| {
      var v, i := j.launch.v, j.launch.i;
      var spec, terminating := Spec(v.spec.name, v.spec.nodePools[i]), v.status.phase == Terminating;
      assert !terminating ==> !Reachable(k.spec.nodePools, i);
      NothingListed(j.cloud, terminating, spec, env);
      hide PoolRound, Permutes, RecordBare;
    }
    hide PoolRound, Permutes, RecordBare;
  }

  lemma NothingListed(c: Cloud, terminating: bool, spec: Spec, env: PoolEnv)
    requires c.nodes == [] && Permutes(env.order) && (terminating || spec.pool.size <= 0)
    ensures var r := PoolRound(c, terminating, spec, env);
            r.cloud == c && (!terminating && spec.pool.size < 0 ==> r.ending != Fine && r.report.None?)
  {
    ListingCounts(c, spec, env);
    assert Listed(c, spec.Prefix()) == [];
    assert env.order([]) == [];
  }

  lemma {:induction false} NothingDrifts(drift: seq<Drift>)
    ensures Drifted([], drift) == []
    decreases |drift|
  {
    if drift != [] { NothingDrifts(drift[..|drift| - 1]); }
  }

  lemma BareNext(k: Kluster, j: Joint, s: Step)
    requires Bare(k, j) && !Updates(s) && (s.Reconciles? ==> Permutes(s.env.order))
    requires !exists i :: Reachable(k.spec.nodePools, i)
    ensures Bare(k, JointNext(j, s))
  {
    hide RecordBare, Next;
    match s
    case Acts(e) =>
      if !OfLaunch(e) { RecordBareNext(k, j.record, e); }
    case Takes(cached) =>
      if cached < |j.record.hist| { SameVersions(k, j.record, cached); }
    case Reconciles(env) => RoundStaysBare(k, j, env);
    case Tells(id) =>
      if j.launch.Telling? { RecordBareNext(k, j.record, Begin(id, Writer.PoolStatus(j.launch.info), 0)); }
    case GivesUp =>
    case DriftsOn(drift) => NothingDrifts(drift);
  }

  lemma SameVersions(k: Kluster, s: State, i: nat)
    requires RecordBare(k, s) && i < |s.hist|
    ensures s.hist[i].spec.nodePools == k.spec.nodePools
  {
    hide Inv;
  }

  lemma {:induction false} BareAlways(k: Kluster, domain: string, anywhere: bool, steps: seq<Step>)
    requires k.status.phase == Pending && NoUpdates(steps) && Ordered(steps)
    requires !exists i :: Reachable(k.spec.nodePools, i)
    ensures Bare(k, After(Start(k, domain, anywhere), steps))
    decreases |steps|
  {
    hide Bare, JointNext, Permutes, Reachable, Updates;
    if steps == [] {
      StartBare(k, domain, anywhere);
    } else {
      var before, last := steps[..|steps| - 1], steps[|steps| - 1];
      assert last in steps && forall s <- before :: s in steps;
      BareAlways(k, domain, anywhere, before);
      BareNext(k, After(Start(k, domain, anywhere), before), last);
    }
  }

  lemma StartBare(k: Kluster, domain: string, anywhere: bool)
    requires k.status.phase == Pending
    ensures Bare(k, Start(k, domain, anywhere))
  {
    InvAlways(k, domain, []);
    hide Inv;
  }

  // ----- ... and may come from any that is reached --------------------------------------------------------

  /** A new record's status: an empty entry for each pool. */
  predicate NewStatus(k: Kluster) {
    && |k.status.nodePools| == |k.spec.nodePools|
    && forall i :: 0 <= i < |k.spec.nodePools| ==>
         k.status.nodePools[i] == NodePoolInfo(k.spec.nodePools[i].name, k.spec.nodePools[i].size, 0, 0, 0)
  }

  const CALM: PoolEnv :=
    PoolEnv(true, (nodes: seq<Node>) => nodes, (i: nat) => Call([], true, true, true, "bbbbb"), true)

  /** The run so far is one of those that CanLeave speaks of, and leads to j. */
  ghost predicate Leads(start: Joint, steps: seq<Step>, j: Joint) {
    NoUpdates(steps) && Ordered(steps) && AllSmooth(start, steps) && After(start, steps) == j
  }

  lemma On(start: Joint, steps: seq<Step>, j: Joint, s: Step) returns (steps': seq<Step>)
    requires Leads(start, steps, j) && Smooth(j, s) && !Updates(s) && (s.Reconciles? ==> Permutes(s.env.order))
    ensures Leads(start, steps', JointNext(j, s))
  {
    hide JointNext, Smooth, Updates, Permutes;
    AfterSnoc(start, steps, s);
    steps' := steps + [s];
    assert steps'[..|steps'| - 1] == steps;
  }

  /** Three events of the ground worker. */
  lemma On3(start: Joint, steps: seq<Step>, j: Joint, cached: nat, podsReady: nat, s: State) returns (steps': seq<Step>)
    requires Leads(start, steps, j) && cached + 1 == |j.record.hist|
    requires Chain3(j.record, Handle(cached, podsReady), Proceed(Done), Proceed(Done)) == s
    ensures Leads(start, steps', j.(record := s))
  {
    hide Leads, Next;
    steps' := On(start, steps, j, Acts(Handle(cached, podsReady)));
    var j1 := j.(record := Next(j.record, Handle(cached, podsReady)));
    steps' := On(start, steps', j1, Acts(Proceed(Done)));
    var j2 := j1.(record := Next(j1.record, Proceed(Done)));
    steps' := On(start, steps', j2, Acts(Proceed(Done)));
  }

  /** Kluster k is running, without incident. */
  lemma RunsSmoothly(k: Kluster, domain: string, anywhere: bool) returns (steps: seq<Step>, s: State)
    requires Preset(k)
    ensures Leads(Start(k, domain, anywhere), steps, Start(k, domain, anywhere).(record := s))
    ensures |s.hist| == 4 && !s.deleted && s.inflight == map[] && s.task == Idle && s.secret
    ensures s.Current() == WithPhase(WithPhase(Located(k, domain), Creating, "Creating Cluster"), Running, "")
  {
    var start := Start(k, domain, anywhere);
    var s0 := start.record;
    var k1 := Located(k, domain);
    var k2 := WithPhase(k1, Creating, "Creating Cluster");
    var k3 := WithPhase(k2, Running, "");
    LocatedInformed(k, domain);
    var s1 := s0.(hist := [k, k1]);
    Locates(k, domain);
    var s2 := s1.(user := true, release := true, secret := true, secretSeen := true,
      task := Rereading(BECOME_CREATING));
    Installs(s1);
    var s3 := s2.(task := Idle, hist := [k, k1, k2]);
    Stores(s2, BECOME_CREATING, k2);
    var s4 := s3.(task := Rereading(BECOME_RUNNING));
    Seeds(s3);
    s := s3.(hist := [k, k1, k2, k3]);
    Stores(s4, BECOME_RUNNING, k3);
    hide Next, Located, WithPhase, Leads, Chain3, Informed, Preset;
    assert Leads(start, [], start) by { Nothing(start); }
    steps := On3(start, [], start, 0, 0, s1);
    steps := On3(start, steps, start.(record := s1), 1, 0, s2);
    steps := Saves(start, steps, start.(record := s2), s3);
    steps := On(start, steps, start.(record := s3), Acts(Handle(2, 4)));
    steps := On(start, steps, start.(record := Next(s3, Handle(2, 4))), Acts(Proceed(Done)));
    steps := Saves(start, steps, start.(record := s4), s);
  }

  lemma Nothing(start: Joint)
    ensures Leads(start, [], start)
  {
  }

  lemma Saves(start: Joint, steps: seq<Step>, j: Joint, s: State) returns (steps': seq<Step>)
    requires Leads(start, steps, j) && Next(Next(j.record, Proceed(Done)), Proceed(Done)) == s
    ensures Leads(start, steps', j.(record := s))
  {
    hide Leads, Next;
    steps' := On(start, steps, j, Acts(Proceed(Done)));
    steps' := On(start, steps', j.(record := Next(j.record, Proceed(Done))), Acts(Proceed(Done)));
  }

  lemma Locates(k: Kluster, domain: string)
    requires Preset(k)
    ensures var s := Lifecycle.Created(k, domain);
            Chain3(s, Handle(0, 0), Proceed(Done), Proceed(Done)) == s.(hist := [k, Located(k, domain)])
  {
    LocatedInformed(k, domain);
    assert [k] + [Located(k, domain)] == [k, Located(k, domain)];
  }

  lemma Installs(s: State)
    requires |s.hist| == 2 && s.task == Idle && s.hist[1].status.phase == Pending && Informed(s.hist[1])
    ensures Chain3(s, Handle(1, 0), Proceed(Done), Proceed(Done)) ==
            s.(user := true, release := true, secret := true, secretSeen := true, task := Rereading(BECOME_CREATING))
  {
  }

  lemma Seeds(s: State)
    requires |s.hist| == 3 && s.task == Idle && s.hist[2].status.phase == Creating
    ensures Next(Next(s, Handle(2, 4)), Proceed(Done)) == s.(task := Rereading(BECOME_RUNNING))
  {
  }

  /** updatePhase without incident. */
  lemma Stores(s: State, w: Writer, v: Kluster)
    requires |s.hist| > 0 && s.task == Rereading(w) && !s.deleted && w.PhaseChange?
    requires s.Current().status.phase != w.to && v == WithPhase(s.Current(), w.to, w.message)
    ensures Next(Next(s, Proceed(Done)), Proceed(Done)) == s.(task := Idle, hist := s.hist + [v])
  {
  }

  /** Pools that want no nodes are reported as they already are, so nothing is sent. */
  lemma NothingToTell(k: Kluster, i: nat)
    requires NewStatus(k) && i < |k.spec.nodePools|
    requires forall m :: 0 <= m <= i ==> k.spec.nodePools[m].size == 0
    ensures WithPoolInfo(k, NodePoolInfo(k.spec.nodePools[i].name, 0, 0, 0, 0)) == None
  {
    var names := InfoNames(k.status.nodePools);
    assert names[i] == k.spec.nodePools[i].name && names[i] in names;
    var first := IndexOf(names, names[i]);
    assert first <= i && k.status.nodePools[first].name == names[first];
  }

  lemma CalmRound(c: Cloud, spec: Spec)
    requires c.nodes == [] && spec.pool.size == 0
    ensures PoolRound(c, false, spec, CALM) == Round(c, false, Fine, Some(NodePoolInfo(spec.pool.name, 0, 0, 0, 0)))
    ensures Permutes(CALM.order)
  {
    assert Listed(c, spec.Prefix()) == [];
  }

  lemma {:induction false} PassesEmptyPools(start: Joint, steps: seq<Step>, j: Joint, v: Kluster, i: nat)
    returns (steps': seq<Step>, told: seq<Told>)
    requires Leads(start, steps, j) && j.launch == Busy(v, 0) && j.cloud.nodes == []
    requires |j.record.hist| > 0 && !j.record.deleted && j.record.Current() == v && j.record.inflight == map[]
    requires NewStatus(v) && v.status.phase == Running
    requires i <= |v.spec.nodePools| && forall m :: 0 <= m < i ==> v.spec.nodePools[m].size == 0
    ensures Leads(start, steps', j.(launch := Busy(v, i), told := told))
    decreases i
  {
    hide Leads, PoolRound, NewStatus, Permutes, Prefix;
    if i == 0 {
      steps', told := steps, j.told;
    } else {
      steps', told := PassesEmptyPools(start, steps, j, v, i - 1);
      var pool := v.spec.nodePools[i - 1];
      var info := NodePoolInfo(pool.name, 0, 0, 0, 0);
      var j1 := j.(launch := Busy(v, i - 1), told := told);
      CalmRound(j.cloud, Spec(v.spec.name, pool));
      steps' := On(start, steps', j1, Reconciles(CALM));
      told := told + [Told(info, j.cloud.nextID)];
      var j2 := j.(launch := Telling(v, i, info), told := told);
      assert JointNext(j1, Reconciles(CALM)) == j2;
      NothingToTell(v, i - 1);
      assert Next(j.record, Begin(0, Writer.PoolStatus(info), 0)) == j.record by { hide WithPoolInfo; }
      steps' := On(start, steps', j2, Tells(0));
    }
  }

  lemma {:induction false} CreatesAll(c: Cloud, prefix: string, i: nat, n: nat)
    requires i <= n
    ensures |CreateLoop(c, prefix, CALM.calls, i, n).0.nodes| == |c.nodes| + n - i
    decreases n - i
  {
    hide GenerateName;
    if i < n { CreatesAll(Create(c, prefix, CALM.calls(i)), prefix, i + 1, n); }
  }

  lemma CreatingRound(c: Cloud, spec: Spec)
    requires c.nodes == [] && spec.pool.size > 0
    ensures var r := PoolRound(c, false, spec, CALM); r.cloud.nodes != [] && r.report.None?
    ensures Permutes(CALM.order)
  {
    assert Listed(c, spec.Prefix()) == [];
    CreatesAll(c, spec.Prefix(), 0, spec.pool.size);
    hide CreateLoop;
  }

  lemma TerminateIsStored(s: State, v: Kluster)
    requires |s.hist| == 4 && !s.deleted && s.inflight == map[] && s.task == Idle && NoNodesRunning(s.Current())
    requires v == WithPhase(s.Current(), Terminating, "Cluster terminating") && s.Current().status.phase == Running
    ensures Next(Next(s, Begin(0, TerminateCluster, 3)), Finish(0, Done)) == s.(hist := s.hist + [v])
  {
    var w := Write(3, v, TerminateCluster);
    assert Next(s, Begin(0, TerminateCluster, 3)) == s.(inflight := map[0 := w]);
    assert map[0 := w] - {0} == map[];
  }

  lemma TearsDown(s: State)
    requires |s.hist| == 5 && !s.deleted && s.task == Idle && s.secret && s.Current().status.phase == Terminating
    ensures Chain3(s, Handle(4, 0), Proceed(Done), Proceed(Done)) == s.(user := false, task := DeletingRelease)
    ensures var t := Next(s.(user := false, task := DeletingRelease), Proceed(Done));
            Deletes(t, Proceed(Done))
  {
  }

  /**
   The kluster runs, its first round creates VMs and ends without writing a status, the terminate request
   sees no nodes, and teardown is done before the next round.
   */
  lemma LeavesSmoothly(k: Kluster, domain: string, anywhere: bool, i: nat) returns (steps: seq<Step>)
    requires Preset(k) && NewStatus(k) && i < |k.spec.nodePools| && k.spec.nodePools[i].size > 0
    requires forall m :: 0 <= m < i ==> k.spec.nodePools[m].size == 0
    ensures NoUpdates(steps) && Ordered(steps) && AllSmooth(Start(k, domain, anywhere), steps)
    ensures Leaves(After(Start(k, domain, anywhere), steps), Proceed(Done))
  {
    var start := Start(k, domain, anywhere);
    var s;
    steps, s := RunsSmoothly(k, domain, anywhere);
    var v := s.Current();
    assert v.spec == k.spec && NewStatus(v) && v.status.phase == Running;
    hide Leads, PoolRound, NewStatus, Permutes, Next, Preset, Located, Prefix;
    var j := start.(record := s);
    steps := On(start, steps, j, Takes(3));
    var told;
    steps, told := PassesEmptyPools(start, steps, j.(launch := Busy(v, 0)), v, i);
    j := j.(launch := Busy(v, i), told := told);
    CreatingRound(j.cloud, Spec(v.spec.name, v.spec.nodePools[i]));
    steps := On(start, steps, j, Reconciles(CALM));
    j := JointNext(j, Reconciles(CALM));
    assert j.record == s && j.cloud.nodes != [];
    steps := EndsSmoothly(start, steps, j);
  }

  lemma EndsSmoothly(start: Joint, steps: seq<Step>, j: Joint) returns (steps': seq<Step>)
    requires Leads(start, steps, j) && j.cloud.nodes != []
    requires var s := j.record;
             && |s.hist| == 4 && !s.deleted && s.inflight == map[] && s.task == Idle && s.secret
             && NoNodesRunning(s.Current()) && s.Current().status.phase == Running
    ensures NoUpdates(steps') && Ordered(steps') && AllSmooth(start, steps')
    ensures Leaves(After(start, steps'), Proceed(Done))
  {
    var s := j.record;
    var v := WithPhase(s.Current(), Terminating, "Cluster terminating");
    TerminateIsStored(s, v);
    var s1 := s.(hist := s.hist + [v]);
    TearsDown(s1);
    var s2 := s1.(user := false, task := DeletingRelease);
    hide Leads, Next, WithPhase, NoNodesRunning, Deletes;
    steps' := On(start, steps, j, Acts(Begin(0, TerminateCluster, 3)));
    var t := Next(s, Begin(0, TerminateCluster, 3));
    steps' := On(start, steps', j.(record := t), Acts(Finish(0, Done)));
    steps' := On3(start, steps', j.(record := s1), 4, 0, s2);
    steps' := On(start, steps', j.(record := s2), Acts(Proceed(Done)));
    assert Leads(start, steps', j.(record := Next(s2, Proceed(Done))));
    LeadsMeans(start, steps', j.(record := Next(s2, Proceed(Done))));
  }

  lemma LeadsMeans(start: Joint, steps: seq<Step>, j: Joint)
    requires Leads(start, steps, j)
    ensures NoUpdates(steps) && Ordered(steps) && AllSmooth(start, steps) && After(start, steps) == j
  {
  }

  lemma {:induction false} FirstWanted(pools: seq<NodePool>, i: nat) returns (f: nat)
    requires Reachable(pools, i)
    ensures Reachable(pools, f) && forall m :: 0 <= m < f ==> pools[m].size == 0
    decreases i
  {
    if m :| 0 <= m < i && pools[m].size > 0 {
      f := FirstWanted(pools, m);
    } else {
      f := i;
    }
  }

  /**
   The record of a new kluster that is never updated can be deleted while VMs that it created are left
   if and only if some pool wants nodes and none before it has a negative size; and if so, without
   any failure and with caches that are always current.
   */
  lemma DeletionCanLeaveNodesIff(k: Kluster, domain: string, anywhere: bool)
    requires Preset(k) && NewStatus(k)
    ensures CanLeave(k, domain, anywhere, false) <==> exists i :: Reachable(k.spec.nodePools, i)
    ensures CanLeave(k, domain, anywhere, true) <==> exists i :: Reachable(k.spec.nodePools, i)
  {
    hide After, NoUpdates, Ordered, AllSmooth;
    if i: nat :| Reachable(k.spec.nodePools, i) {
      var f := FirstWanted(k.spec.nodePools, i);
      var steps := LeavesSmoothly(k, domain, anywhere, f);
      assert Leaves(After(Start(k, domain, anywhere), steps), Proceed(Done));
    } else {
      forall steps: seq<Step>, e: Event | NoUpdates(steps) && Ordered(steps)
        ensures !Leaves(After(Start(k, domain, anywhere), steps), e)
      {
        BareAlways(k, domain, anywhere, steps);
      }
    }
  }
}
