/**
 The kluster lifecycle as a protocol of several writers over one stored record.

 Every writer does Get, modify, Update. The state holds all versions the API server ever
 stored, the writes in flight between a Get and its Update, the outside world that creation
 and teardown touch, and what the ground controller's worker is in the middle of. An event
 that is not possible in a state leaves the state alone, so a run is any sequence of events.
 */
module Lifecycle {
  import opened Common
  import opened Klusters

  /** A modified copy on its way to Update, with the index of the version its Get returned. */
  datatype Write = Write(base: nat, value: Kluster, writer: Writer)

  /** What the one ground worker that owns the kluster's key will do next. */
  datatype Task =
    | Idle
    | ListingRouters(account: string)
    | CreatingUser
    | InstallingRelease
    | Seeding
    | Rereading(writer: Writer)
    | Saving(write: Write)
    | LookingUpSecret
    | DeletingUser
    | DeletingRelease
    | DeletingRecord

  /** How an outside call ended. A failed call may still have taken (partial) effect. */
  datatype Outcome = Done | Failed(applied: bool, secretToo: bool)

  datatype Event =
    | Begin(id: nat, writer: Writer, guard: nat)   // an API or launch request does its Get
    | Finish(id: nat, outcome: Outcome)            // ... and its Update
    | Handle(cached: nat, podsReady: nat)          // the ground worker takes the key, with a cached version
    | RoutersListed(routers: seq<Router>, group: Option<string>)
    | Proceed(outcome: Outcome)                    // the ground worker's next call returns

  datatype State = State(
    domain: string,
    hist: seq<Kluster>,            // every version ever stored; the last one is current
    deleted: bool,
    inflight: map<nat, Write>,
    task: Task,
    user: bool, release: bool, secret: bool,
    secretSeen: bool)              // the secret existed at some time
  {
    function Current(): Kluster
      requires |hist| > 0
    {
      hist[|hist| - 1]
    }
  }

  /** The state right after a kluster was created through the API. */
  function Created(k: Kluster, domain: string): State {
    State(domain, [k], false, map[], Idle, false, false, false, false)
  }

  /** Conflict-checked Update: accepted only if nobody stored a version since the Get. */
  predicate Accepts(s: State, w: Write) {
    !s.deleted && w.base == |s.hist| - 1
  }

  /** Storing an identical record creates no new version. */
  function Store(s: State, w: Write): State {
    if !Accepts(s, w) || (|s.hist| > 0 && w.value == s.Current()) then s
    else s.(hist := s.hist + [w.value])
  }

  /** An Update call is sent; on failure it may have been accepted nevertheless. */
  function Send(s: State, w: Write, outcome: Outcome): State {
    if outcome == Done || outcome.applied then Store(s, w) else s
  }

  predicate NoNodesRunning(k: Kluster) {
    forall info <- k.status.nodePools :: info.running <= 0
  }

  /** A request reads the record; terminate also looked at some version before, for running nodes. */
  predicate MayBegin(s: State, writer: Writer, guard: nat) {
    match writer
    case UpdateCluster(_) => true
    case TerminateCluster => guard < |s.hist| && NoNodesRunning(s.hist[guard])
    case PoolStatus(_) => true
    case _ => false
  }

  function BeginRequest(s: State, id: nat, writer: Writer, guard: nat): State {
    if s.deleted || s.hist == [] || id in s.inflight || !MayBegin(s, writer, guard) then s
    else
      match Modify(writer, s.Current())
      case None => s
      case Some(v) => s.(inflight := s.inflight[id := Write(|s.hist| - 1, v, writer)])
  }

  function FinishRequest(s: State, id: nat, outcome: Outcome): State {
    if id !in s.inflight then s
    else Send(s.(inflight := s.inflight - {id}), s.inflight[id], outcome)
  }

  /** The ground controller's dispatch on the cached phase. */
  function Dispatch(cached: Kluster, domain: string, podsReady: nat): Task {
    match cached.status.phase
    case Pending =>
      if RequiresOpenstackInfo(cached) then ListingRouters(cached.account)
      else if RequiresKubernikusInfo(cached) then Rereading(KubernikusDiscovery(cached.name, domain))
      else CreatingUser
    case Creating => if podsReady == 4 then Seeding else Idle
    case Running => Idle
    case Terminating => LookingUpSecret
  }

  function HandleKey(s: State, cached: nat, podsReady: nat): State {
    if s.task != Idle || cached >= |s.hist| then s
    else s.(task := Dispatch(s.hist[cached], s.domain, podsReady))
  }

  function ListRouters(s: State, routers: seq<Router>, group: Option<string>): State {
    if !s.task.ListingRouters? then s
    else s.(task := Rereading(OpenstackDiscovery(s.task.account, routers, group)))
  }

  const BECOME_CREATING := PhaseChange(Pending, Creating, "Creating Cluster")
  const BECOME_RUNNING := PhaseChange(Creating, Running, "")

  function Reread(s: State, writer: Writer): State {
    if s.deleted || s.hist == [] then s.(task := Idle)
    else
      match Modify(writer, s.Current())
      case None => s.(task := Idle)
      case Some(v) => s.(task := Saving(Write(|s.hist| - 1, v, writer)))
  }

  /** createKluster: first the service user, then the helm release that brings the secret. */
  function AdvanceCreation(s: State, outcome: Outcome): State {
    match s.task
    case CreatingUser =>
      if outcome == Done then s.(user := true, task := InstallingRelease)
      else s.(user := s.user || outcome.applied, task := Idle)
    case InstallingRelease =>
      if outcome == Done then
        s.(release := true, secret := true, secretSeen := true, task := Rereading(BECOME_CREATING))
      else
        var partial := outcome.applied && outcome.secretToo;
        s.(release := s.release || outcome.applied, secret := s.secret || partial,
           secretSeen := s.secretSeen || partial, task := Idle)
    case _ => s
  }

  /** terminateKluster: the user if the secret is still there, then the release, then the record. */
  function AdvanceTeardown(s: State, outcome: Outcome): State {
    match s.task
    case LookingUpSecret =>
      s.(task := if outcome != Done then Idle else if s.secret then DeletingUser else DeletingRelease)
    case DeletingUser =>
      if outcome == Done then s.(user := false, task := DeletingRelease)
      else s.(user := s.user && !outcome.applied, task := Idle)
    case DeletingRelease =>
      // with no release left, Done is the "not found" error that the controller accepts
      if outcome == Done then s.(release := false, secret := false, task := DeletingRecord)
      else
        s.(release := s.release && !outcome.applied,
           secret := s.secret && !outcome.applied && !outcome.secretToo, task := Idle)
    case DeletingRecord => s.(deleted := s.deleted || outcome == Done || outcome.applied, task := Idle)
    case _ => s
  }

  function Advance(s: State, outcome: Outcome): State {
    match s.task
    case Idle => s
    case ListingRouters(_) => if outcome == Done then s else s.(task := Idle)
    case Seeding => s.(task := if outcome == Done then Rereading(BECOME_RUNNING) else Idle)
    case Rereading(writer) => if outcome == Done then Reread(s, writer) else s.(task := Idle)
    case Saving(write) => Send(s.(task := Idle), write, outcome)
    case _ => if Creation(s.task) then AdvanceCreation(s, outcome) else AdvanceTeardown(s, outcome)
  }

  predicate Creation(t: Task) {
    t.CreatingUser? || t.InstallingRelease?
  }

  function Next(s: State, e: Event): State {
    match e
    case Begin(id, writer, guard) => BeginRequest(s, id, writer, guard)
    case Finish(id, outcome) => FinishRequest(s, id, outcome)
    case Handle(cached, podsReady) => HandleKey(s, cached, podsReady)
    case RoutersListed(routers, group) => ListRouters(s, routers, group)
    case Proceed(outcome) => Advance(s, outcome)
  }

  /** The state after a run. */
  function Exec(s: State, es: seq<Event>): State {
    if es == [] then s else Next(Exec(s, es[..|es| - 1]), es[|es| - 1])
  }

  lemma {:induction false} ExecAppend(s: State, a: seq<Event>, b: seq<Event>)
    ensures Exec(s, a + b) == Exec(Exec(s, a), b)
    decreases |b|
  {
    if b == [] {
      assert a + b == a;
    } else {
      var n := |b| - 1;
      assert (a + b)[..|a + b| - 1] == a + b[..n];
      ExecAppend(s, a, b[..n]);
    }
  }

  lemma ExecSnoc(s: State, es: seq<Event>, e: Event)
    ensures Exec(s, es + [e]) == Next(Exec(s, es), e)
  {
    assert (es + [e])[..|es + [e]| - 1] == es;
  }
}
