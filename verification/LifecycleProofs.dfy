/** What holds in every run of the lifecycle protocol, however stale the caches are. */
module LifecycleProofs {
  import opened Common
  import opened Klusters
  import opened Lifecycle

  // ----- The inductive invariant ----------------------------------------------------------

  predicate RequestWriter(w: Writer) {
    w.UpdateCluster? || w.TerminateCluster? || w.PoolStatus?
  }

  predicate GroundWriter(w: Writer) {
    w.OpenstackDiscovery? || w.KubernikusDiscovery? || w == BECOME_CREATING || w == BECOME_RUNNING
  }

  predicate WriteOK(hist: seq<Kluster>, w: Write) {
    w.base < |hist| && Modify(w.writer, hist[w.base]) == Some(w.value)
  }

  /** The worker was sent to create or to start the kluster. */
  predicate TowardsRunning(t: Task) {
    t.CreatingUser? || t.InstallingRelease? || t.Seeding? ||
    (t.Rereading? && t.writer.PhaseChange?) || (t.Saving? && t.write.writer.PhaseChange?)
  }

  ghost predicate Versions(hist: seq<Kluster>) {
    |hist| > 0 && forall i, j :: 0 <= i <= j < |hist| ==> Later(hist[i], hist[j])
  }

  predicate PastPending(k: Kluster) {
    k.status.phase == Creating || k.status.phase == Running
  }

  ghost predicate HistInv(hist: seq<Kluster>) {
    Versions(hist) && forall k <- hist :: PastPending(k) ==> Informed(k)
  }

  ghost predicate RequestsOK(hist: seq<Kluster>, inflight: map<nat, Write>) {
    forall id <- inflight :: RequestWriter(inflight[id].writer) && WriteOK(hist, inflight[id])
  }

  ghost predicate TaskOK(hist: seq<Kluster>, t: Task)
    requires |hist| > 0
  {
    && (t.Rereading? ==> GroundWriter(t.writer))
    && (t.Saving? ==> GroundWriter(t.write.writer) && WriteOK(hist, t.write))
    && (TowardsRunning(t) ==> Informed(hist[|hist| - 1]))
  }

  ghost predicate Inv(s: State) {
    HistInv(s.hist) && RequestsOK(s.hist, s.inflight) && TaskOK(s.hist, s.task)
  }

  lemma LaterInformed(a: Kluster, b: Kluster)
    requires Later(a, b) && Informed(a)
    ensures Informed(b)
  {
  }

  lemma LaterTransitive(a: Kluster, b: Kluster, c: Kluster)
    requires Later(a, b) && Later(b, c)
    ensures Later(a, c)
  {
  }

  lemma Append(hist: seq<Kluster>, v: Kluster)
    requires Versions(hist) && Later(hist[|hist| - 1], v) && Later(v, v)
    ensures Versions(hist + [v])
  {
    hide Later;
    var next := hist + [v];
    forall i, j | 0 <= i <= j < |next| ensures Later(next[i], next[j]) {
      if j == |hist| && i < j {
        LaterTransitive(hist[i], hist[|hist| - 1], v);
      }
    }
  }

  /** Only a phase change can make a record leave Pending for Creating or Running. */
  lemma PhaseMovers(w: Writer, k: Kluster)
    requires Modify(w, k).Some? && !w.PhaseChange?
    ensures PastPending(Modify(w, k).value) ==> PastPending(k)
  {
  }

  /** A version accepted from a writer keeps the history invariant. */
  lemma GrowHist(hist: seq<Kluster>, w: Write)
    requires HistInv(hist) && WriteOK(hist, w) && w.base == |hist| - 1
    requires w.writer.PhaseChange? ==> Informed(hist[|hist| - 1])
    ensures HistInv(hist + [w.value])
    ensures Later(hist[|hist| - 1], w.value)
  {
    var k, v := hist[|hist| - 1], w.value;
    ModifyKeeps(w.writer, k);
    if !w.writer.PhaseChange? { PhaseMovers(w.writer, k); }
    hide Modify;
    Append(hist, v);
    assert k in hist;
    if PastPending(v) {
      LaterInformed(k, v);
    }
  }

  lemma WriteStaysOK(hist: seq<Kluster>, w: Write, v: Kluster)
    requires WriteOK(hist, w)
    ensures WriteOK(hist + [v], w)
  {
  }

  lemma RequestsStayOK(hist: seq<Kluster>, inflight: map<nat, Write>, v: Kluster)
    requires RequestsOK(hist, inflight)
    ensures RequestsOK(hist + [v], inflight)
  {
    hide WriteOK;
    forall id | id in inflight ensures WriteOK(hist + [v], inflight[id]) {
      WriteStaysOK(hist, inflight[id], v);
    }
  }

  /** Storing a write of either kind keeps the invariant. */
  lemma StoreKeepsInv(s: State, w: Write)
    requires Inv(s) && WriteOK(s.hist, w)
    requires w.writer.PhaseChange? ==> Informed(s.Current())
    ensures Inv(Store(s, w))
  {
    hide Modify, Later, Informed, WriteOK;
    if Store(s, w) != s {
      assert w.base == |s.hist| - 1;
      GrowHist(s.hist, w);
      RequestsStayOK(s.hist, s.inflight, w.value);
      if s.task.Saving? { WriteStaysOK(s.hist, s.task.write, w.value); }
      if TowardsRunning(s.task) { LaterInformed(s.Current(), w.value); }
    }
  }

  lemma BeginKeepsInv(s: State, id: nat, writer: Writer, guard: nat)
    requires Inv(s)
    ensures Inv(BeginRequest(s, id, writer, guard))
  {
    hide Modify, Later, Informed, NoNodesRunning;
  }

  lemma FinishKeepsInv(s: State, id: nat, outcome: Outcome)
    requires Inv(s)
    ensures Inv(FinishRequest(s, id, outcome))
  {
    hide Modify, Later, Informed;
    if id in s.inflight {
      StoreKeepsInv(s.(inflight := s.inflight - {id}), s.inflight[id]);
    }
  }

  lemma HandleKeepsInv(s: State, cached: nat, podsReady: nat)
    requires Inv(s)
    ensures Inv(HandleKey(s, cached, podsReady))
  {
    hide Later, Modify, RequestsOK;
    if s.task == Idle && cached < |s.hist| {
      var k := s.hist[cached];
      assert k in s.hist;
      DispatchOK(k, s.domain, podsReady);
      hide Dispatch, Informed;
      if TowardsRunning(Dispatch(k, s.domain, podsReady)) {
        LaterInformed(k, s.Current());
      }
    }
  }

  lemma DispatchOK(k: Kluster, domain: string, podsReady: nat)
    requires PastPending(k) ==> Informed(k)
    ensures !Dispatch(k, domain, podsReady).Saving?
    ensures Dispatch(k, domain, podsReady).Rereading? ==> GroundWriter(Dispatch(k, domain, podsReady).writer)
    ensures TowardsRunning(Dispatch(k, domain, podsReady)) ==> Informed(k)
  {
  }

  lemma AdvanceKeepsInv(s: State, outcome: Outcome)
    requires Inv(s)
    ensures Inv(Advance(s, outcome))
  {
    hide Modify, Later, Informed, HistInv, RequestsOK, Reread, Send, AdvanceCreation, AdvanceTeardown, WriteOK;
    if Creation(s.task) { CreationFrame(s, outcome); }
    TeardownFrame(s, outcome);
    if s.task.Saving? {
      SendKeepsInv(s.(task := Idle), s.task.write, outcome);
    } else if s.task.Rereading? {
      RereadKeepsInv(s, s.task.writer);
    }
  }

  /** Creation steps leave the record and all writes in flight alone. */
  lemma CreationFrame(s: State, outcome: Outcome)
    requires Creation(s.task)
    ensures AdvanceCreation(s, outcome).hist == s.hist
    ensures AdvanceCreation(s, outcome).inflight == s.inflight
    ensures var t := AdvanceCreation(s, outcome).task;
            t.Idle? || t.InstallingRelease? || (t.Rereading? && t.writer == BECOME_CREATING)
  {
  }

  predicate Teardown(t: Task) {
    t.LookingUpSecret? || t.DeletingUser? || t.DeletingRelease? || t.DeletingRecord?
  }

  /** So do teardown steps. */
  lemma TeardownFrame(s: State, outcome: Outcome)
    ensures AdvanceTeardown(s, outcome).hist == s.hist
    ensures AdvanceTeardown(s, outcome).inflight == s.inflight
    ensures Teardown(s.task) ==> AdvanceTeardown(s, outcome).task.Idle? || Teardown(AdvanceTeardown(s, outcome).task)
  {
  }

  lemma SendKeepsInv(s: State, w: Write, outcome: Outcome)
    requires Inv(s) && WriteOK(s.hist, w)
    requires w.writer.PhaseChange? ==> Informed(s.Current())
    ensures Inv(Send(s, w, outcome))
  {
    hide Modify, Later, Informed, HistInv, RequestsOK, Store, Inv;
    StoreKeepsInv(s, w);
  }

  lemma RereadKeepsInv(s: State, writer: Writer)
    requires Inv(s) && s.task == Rereading(writer)
    ensures Inv(Reread(s, writer))
  {
    hide Modify, Later, Informed, RequestsOK;
  }

  lemma InvNext(s: State, e: Event)
    requires Inv(s)
    ensures Inv(Next(s, e))
  {
    hide Inv, BeginRequest, FinishRequest, HandleKey, Advance;
    match e
    case Begin(id, writer, guard) => BeginKeepsInv(s, id, writer, guard);
    case Finish(id, outcome) => FinishKeepsInv(s, id, outcome);
    case Handle(cached, podsReady) => HandleKeepsInv(s, cached, podsReady);
    case RoutersListed(routers, group) => ListKeepsInv(s, routers, group);
    case Proceed(outcome) => AdvanceKeepsInv(s, outcome);
  }

  lemma ListKeepsInv(s: State, routers: seq<Router>, group: Option<string>)
    requires Inv(s)
    ensures Inv(ListRouters(s, routers, group))
  {
    hide Modify, Later, Informed;
  }

  lemma {:induction false} InvAlways(k: Kluster, domain: string, es: seq<Event>)
    requires k.status.phase == Pending
    ensures Inv(Exec(Created(k, domain), es))
    decreases |es|
  {
    if es != [] {
      InvAlways(k, domain, es[..|es| - 1]);
      InvNext(Exec(Created(k, domain), es[..|es| - 1]), es[|es| - 1]);
    }
  }
}
