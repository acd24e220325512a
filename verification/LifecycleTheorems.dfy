/** The main results about runs of the lifecycle protocol. */
module LifecycleTheorems {
  import opened Common
  import opened Klusters
  import opened Lifecycle
  import opened LifecycleProofs

  function Run(k: Kluster, domain: string, es: seq<Event>): State {
    Exec(Created(k, domain), es)
  }

  // ----- Creating and Running imply complete discovery -------------------------------------

  lemma PastPendingIsInformed(k: Kluster, domain: string, es: seq<Event>, i: nat)
    requires k.status.phase == Pending
    requires i < |Run(k, domain, es).hist|
    ensures PastPending(Run(k, domain, es).hist[i]) ==> Informed(Run(k, domain, es).hist[i])
  {
    InvAlways(k, domain, es);
    assert Run(k, domain, es).hist[i] in Run(k, domain, es).hist;
  }

  /** Discoveries are write-once; identity, immutable spec and the pool names in the status are fixed. */
  lemma VersionsOnlyDiscover(k: Kluster, domain: string, es: seq<Event>, i: nat, j: nat)
    requires k.status.phase == Pending
    requires i <= j < |Run(k, domain, es).hist|
    ensures Later(Run(k, domain, es).hist[i], Run(k, domain, es).hist[j])
  {
    InvAlways(k, domain, es);
  }

  // ----- No lost updates ---------------------------------------------------------------------

  /** The write whose version this event stores. */
  function StoredWrite(s: State, e: Event): Option<Write> {
    match e
    case Finish(id, outcome) =>
      if id in s.inflight && (outcome == Done || outcome.applied) && Accepts(s, s.inflight[id])
      then Some(s.inflight[id]) else None
    case Proceed(outcome) =>
      if s.task.Saving? && (outcome == Done || outcome.applied) && Accepts(s, s.task.write)
      then Some(s.task.write) else None
    case _ => None
  }

  /** What an event does to the stored versions. */
  lemma StoredWriteAppends(s: State, e: Event)
    requires |s.hist| > 0
    ensures Next(s, e).hist == (if StoredWrite(s, e).None? || StoredWrite(s, e).value.value == s.Current()
                                then s.hist else s.hist + [StoredWrite(s, e).value.value])
  {
    hide Modify, Dispatch, MayBegin, AdvanceCreation, AdvanceTeardown;
    match e
    case Finish(id, outcome) =>
    case Proceed(outcome) =>
      if Creation(s.task) { CreationFrame(s, outcome); }
      TeardownFrame(s, outcome);
    case _ =>
  }

  lemma StoredWriteOK(s: State, e: Event)
    requires Inv(s) && StoredWrite(s, e).Some?
    ensures WriteOK(s.hist, StoredWrite(s, e).value) && StoredWrite(s, e).value.base == |s.hist| - 1
    ensures RequestWriter(StoredWrite(s, e).value.writer) || GroundWriter(StoredWrite(s, e).value.writer)
  {
    hide HistInv, WriteOK, GroundWriter, RequestWriter;
  }

  /** Each accepted write changes the current version, and of that only its writer's own fields. */
  lemma StoredWriteFrame(s: State, e: Event)
    requires Inv(s)
    ensures StoredWrite(s, e).None? ==> Next(s, e).hist == s.hist
    ensures StoredWrite(s, e).Some? ==>
              var w := StoredWrite(s, e).value;
              && Modify(w.writer, s.Current()) == Some(w.value)
              && OnlyOwnFields(w.writer, s.Current(), w.value)
              && Next(s, e).hist == (if w.value == s.Current() then s.hist else s.hist + [w.value])
  {
    StoredWriteAppends(s, e);
    hide Next, HistInv, OnlyOwnFields, Later, Modify, StoredWrite, RequestsOK, TaskOK, GroundWriter, RequestWriter;
    if StoredWrite(s, e).Some? {
      StoredWriteOK(s, e);
      ModifyKeeps(StoredWrite(s, e).value.writer, s.Current());
    }
  }

  /** Spec.NodePools of the last update request that the API server accepted, else those of the creation. */
  function LastAcceptedPools(s: State, es: seq<Event>): seq<NodePool>
    requires |s.hist| > 0
  {
    if es == [] then s.Current().spec.nodePools
    else
      var before := es[..|es| - 1];
      var stored := StoredWrite(Exec(s, before), es[|es| - 1]);
      if stored.Some? && stored.value.writer.UpdateCluster? then WithDefaultImages(stored.value.writer.pools)
      else LastAcceptedPools(s, before)
  }

  lemma {:induction false} NoLostUpdates(k: Kluster, domain: string, es: seq<Event>)
    requires k.status.phase == Pending
    ensures |Run(k, domain, es).hist| > 0
    ensures Run(k, domain, es).Current().spec.nodePools == LastAcceptedPools(Created(k, domain), es)
    decreases |es|
  {
    InvAlways(k, domain, es);
    hide Inv, Next, Modify, OnlyOwnFields, StoredWrite;
    if es != [] {
      var before, e := es[..|es| - 1], es[|es| - 1];
      NoLostUpdates(k, domain, before);
      InvAlways(k, domain, before);
      UpdateSetsPools(Run(k, domain, before), e);
    }
  }

  lemma UpdateSetsPools(s: State, e: Event)
    requires Inv(s)
    ensures |Next(s, e).hist| > 0
    ensures Next(s, e).Current().spec.nodePools ==
            var stored := StoredWrite(s, e);
            if stored.Some? && stored.value.writer.UpdateCluster? then WithDefaultImages(stored.value.writer.pools)
            else s.Current().spec.nodePools
  {
    StoredWriteFrame(s, e);
    hide Inv, Next, StoredWrite;
  }

  // ----- Phases ----------------------------------------------------------------------------------

  /** Pending to Creating to Running; Terminating from anywhere and never left. */
  predicate LegalMove(p: Phase, q: Phase) {
    p == q || q == Terminating || (p == Pending && q == Creating) || (p == Creating && q == Running)
  }

  ghost predicate LegalHistory(hist: seq<Kluster>) {
    forall i :: 0 < i < |hist| ==> LegalMove(hist[i - 1].status.phase, hist[i].status.phase)
  }

  /**
   updatePhase stores a phase although the phase it read again just before is no longer the
   one its handler had seen in the cache.
   */
  predicate StalePhaseWrite(s: State, e: Event) {
    var stored := StoredWrite(s, e);
    && stored.Some? && stored.value.writer.PhaseChange? && stored.value.base < |s.hist|
    && s.hist[stored.value.base].status.phase != stored.value.writer.from
  }

  ghost predicate NeverStale(s: State, es: seq<Event>) {
    forall n :: 0 <= n < |es| ==> !StalePhaseWrite(Exec(s, es[..n]), es[n])
  }

  /** A writer moves the phase legally unless it is a phase change from another phase than the one read. */
  lemma ModifyMoves(w: Writer, k: Kluster)
    requires RequestWriter(w) || GroundWriter(w)
    requires Modify(w, k).Some?
    ensures LegalMove(k.status.phase, Modify(w, k).value.status.phase) <==>
      !(w.PhaseChange? && k.status.phase != w.from)
  {
  }

  lemma LegalAppend(hist: seq<Kluster>, v: Kluster)
    requires |hist| > 0
    ensures LegalHistory(hist + [v]) <==>
            LegalHistory(hist) && LegalMove(hist[|hist| - 1].status.phase, v.status.phase)
  {
    var next := hist + [v];
    if LegalHistory(next) {
      assert LegalMove(next[|hist| - 1].status.phase, next[|hist|].status.phase);
      forall i | 0 < i < |hist| ensures LegalMove(hist[i - 1].status.phase, hist[i].status.phase) {
        assert LegalMove(next[i - 1].status.phase, next[i].status.phase);
      }
    }
  }

  lemma PhaseStep(s: State, e: Event)
    requires Inv(s)
    ensures LegalHistory(Next(s, e).hist) <==> LegalHistory(s.hist) && !StalePhaseWrite(s, e)
  {
    hide Modify, Next, LegalHistory, StoredWrite, OnlyOwnFields, GroundWriter, RequestWriter, HistInv, RequestsOK,
      TaskOK;
    StoredWriteFrame(s, e);
    if StoredWrite(s, e).Some? {
      var w := StoredWrite(s, e).value;
      StoredWriteOK(s, e);
      ModifyMoves(w.writer, s.Current());
      LegalAppend(s.hist, w.value);
    }
  }

  /** The stored phase only ever moves forward exactly when no phase write was stale. */
  lemma {:induction false} PhasesLegalIffNeverStale(k: Kluster, domain: string, es: seq<Event>)
    requires k.status.phase == Pending
    ensures LegalHistory(Run(k, domain, es).hist) <==> NeverStale(Created(k, domain), es)
    decreases |es|
  {
    hide Inv, Next, LegalHistory, StalePhaseWrite;
    if es == [] {
      LegalSingle(k);
    } else {
      var s0 := Created(k, domain);
      var before, e := es[..|es| - 1], es[|es| - 1];
      PhasesLegalIffNeverStale(k, domain, before);
      InvAlways(k, domain, before);
      PhaseStep(Run(k, domain, before), e);
      NeverStaleSnoc(s0, es);
    }
  }

  lemma LegalSingle(k: Kluster)
    ensures LegalHistory([k])
  {
  }

  lemma NeverStaleSnoc(s: State, es: seq<Event>)
    requires es != []
    ensures NeverStale(s, es) <==>
            NeverStale(s, es[..|es| - 1]) && !StalePhaseWrite(Exec(s, es[..|es| - 1]), es[|es| - 1])
  {
    hide Exec, StalePhaseWrite;
    var before := es[..|es| - 1];
    assert forall n :: 0 <= n < |before| ==> es[..n] == before[..n] && es[n] == before[n];
    if NeverStale(s, es) {
      forall n | 0 <= n < |before| ensures !StalePhaseWrite(Exec(s, before[..n]), before[n]) {
        assert !StalePhaseWrite(Exec(s, es[..n]), es[n]);
      }
    }
  }
}
