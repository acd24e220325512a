/** When the record goes away: what teardown has removed by then, over all attempts. */
module LifecycleTeardown {
  import opened Common
  import opened Klusters
  import opened Lifecycle
  import opened LifecycleProofs
  import opened LifecycleTheorems

  predicate Deletes(s: State, e: Event) {
    !s.deleted && Next(s, e).deleted
  }

  // ----- The release: no assumption on caches -----------------------------------------------

  ghost predicate ReleaseInv(s: State) {
    && (s.secret ==> s.release && s.secretSeen)
    && (s.task.DeletingRecord? ==> !s.release)
  }

  lemma ReleaseNext(s: State, e: Event)
    requires ReleaseInv(s)
    ensures ReleaseInv(Next(s, e))
    ensures Deletes(s, e) ==> s.task.DeletingRecord?
  {
    match e
    case Handle(cached, podsReady) =>
      hide RequiresOpenstackInfo, RequiresKubernikusInfo;
    case Proceed(outcome) =>
      ReleaseProceed(s, outcome);
      hide Advance;
    case _ =>
      RequestUser(s, e);
      hide Next;
  }

  lemma ReleaseProceed(s: State, outcome: Outcome)
    requires ReleaseInv(s)
    ensures ReleaseInv(Advance(s, outcome))
    ensures Advance(s, outcome).deleted && !s.deleted ==> s.task.DeletingRecord?
  {
    if s.task.Saving? || s.task.Rereading? {
      SaveUser(s, outcome);
      hide Advance;
    }
    hide Reread, Send;
  }

  lemma {:induction false} ReleaseAlways(k: Kluster, domain: string, es: seq<Event>)
    ensures ReleaseInv(Run(k, domain, es))
    decreases |es|
  {
    hide Next, ReleaseInv;
    if es == [] {
      assert ReleaseInv(Created(k, domain)) by { CreatedReleaseInv(k, domain); }
    } else {
      ReleaseAlways(k, domain, es[..|es| - 1]);
      ReleaseNext(Run(k, domain, es[..|es| - 1]), es[|es| - 1]);
    }
  }

  lemma CreatedReleaseInv(k: Kluster, domain: string)
    ensures ReleaseInv(Created(k, domain))
  {
  }

  /** However stale the caches and however many attempts failed: no record is deleted before its release. */
  lemma DeletedAfterRelease(k: Kluster, domain: string, es: seq<Event>, e: Event)
    requires Deletes(Run(k, domain, es), e)
    ensures !Run(k, domain, es).release && !Run(k, domain, es).secret
  {
    ReleaseAlways(k, domain, es);
    ReleaseNext(Run(k, domain, es), e);
  }

  // ----- The service user: the cached phase is the stored one --------------------------------

  /** The ground worker's cached phase is the stored one whenever it takes the key or stores a phase. */
  predicate PhaseInSync(s: State, e: Event) {
    && !StalePhaseWrite(s, e)
    && (e.Handle? && e.cached < |s.hist| ==>
          !s.deleted && s.hist[e.cached].status.phase == s.hist[|s.hist| - 1].status.phase)
  }

  ghost predicate AlwaysInSync(s: State, es: seq<Event>) {
    forall n :: 0 <= n < |es| ==> PhaseInSync(Exec(s, es[..n]), es[n])
  }

  predicate TornDown(s: State) {
    s.secretSeen && !s.secret
  }

  predicate Terminated(s: State) {
    |s.hist| > 0 && s.Current().status.phase == Terminating
  }

  ghost predicate UserInv(s: State) {
    && (Teardown(s.task) ==> Terminated(s))
    && (TornDown(s) ==> Terminated(s) && !s.user)
    && (Creation(s.task) ==> !TornDown(s))
    && (s.task.DeletingUser? ==> s.secret)
    && (s.task.DeletingRelease? && s.secret ==> !s.user)
    && (s.task.DeletingRecord? ==> !s.secret)
  }

  /** In step with the store, a terminating kluster stays terminating. */
  lemma TerminatedStays(s: State, e: Event)
    requires Inv(s) && Terminated(s) && !StalePhaseWrite(s, e)
    ensures Terminated(Next(s, e))
  {
    hide Next, StoredWrite, Inv, OnlyOwnFields, Modify, GroundWriter, RequestWriter;
    StoredWriteFrame(s, e);
    if StoredWrite(s, e).Some? {
      StoredWriteOK(s, e);
      ModifyMoves(StoredWrite(s, e).value.writer, s.Current());
    }
  }

  lemma UserNext(s: State, e: Event)
    requires Inv(s) && ReleaseInv(s) && UserInv(s) && PhaseInSync(s, e)
    ensures UserInv(Next(s, e))
  {
    if Terminated(s) { TerminatedStays(s, e); }
    hide Inv, StalePhaseWrite, ReleaseInv;
    match e
    case Handle(cached, podsReady) => HandleUser(s, cached, podsReady);
    case Proceed(outcome) => ProceedUser(s, outcome);
    case _ =>
      RequestUser(s, e);
      hide Next;
  }

  /** Requests and router lists touch neither the outside world nor enter creation or teardown. */
  lemma RequestUser(s: State, e: Event)
    requires !e.Handle? && !e.Proceed?
    ensures var t := Next(s, e);
            && t.user == s.user && t.release == s.release && t.secret == s.secret
            && t.secretSeen == s.secretSeen && t.deleted == s.deleted
    ensures var t := Next(s, e).task; t == s.task || t.Rereading?
  {
    hide Modify, Accepts, MayBegin;
  }

  lemma HandleUser(s: State, cached: nat, podsReady: nat)
    requires UserInv(s)
    requires cached < |s.hist| ==> s.hist[cached].status.phase == s.hist[|s.hist| - 1].status.phase
    ensures UserInv(HandleKey(s, cached, podsReady))
  {
    hide RequiresOpenstackInfo, RequiresKubernikusInfo;
  }

  lemma ProceedUser(s: State, outcome: Outcome)
    requires UserInv(s) && (Terminated(s) ==> Terminated(Advance(s, outcome)))
    ensures UserInv(Advance(s, outcome))
  {
    hide Modify, Store, Terminated;
    if s.task.Saving? || s.task.Rereading? {
      SaveUser(s, outcome);
      hide Advance;
    } else {
      ProceedWorld(s, outcome);
    }
  }

  lemma SaveUser(s: State, outcome: Outcome)
    requires s.task.Saving? || s.task.Rereading?
    ensures var t := Advance(s, outcome);
            && t.user == s.user && t.release == s.release && t.secret == s.secret
            && t.secretSeen == s.secretSeen && t.deleted == s.deleted
    ensures var t := Advance(s, outcome).task; t.Idle? || t.Saving?
  {
    hide Modify, Accepts;
  }

  lemma ProceedWorld(s: State, outcome: Outcome)
    requires UserInv(s) && (Terminated(s) ==> Terminated(Advance(s, outcome)))
    requires !s.task.Saving? && !s.task.Rereading?
    ensures UserInv(Advance(s, outcome))
  {
    hide Terminated, Reread, Send;
  }

  lemma InSyncSnoc(s: State, es: seq<Event>)
    requires es != [] && AlwaysInSync(s, es)
    ensures AlwaysInSync(s, es[..|es| - 1]) && PhaseInSync(Exec(s, es[..|es| - 1]), es[|es| - 1])
  {
    hide Exec, PhaseInSync;
    var before := es[..|es| - 1];
    forall n | 0 <= n < |before| ensures PhaseInSync(Exec(s, before[..n]), before[n]) {
      assert es[..n] == before[..n];
      assert PhaseInSync(Exec(s, es[..n]), es[n]);
    }
    assert PhaseInSync(Exec(s, es[..|es| - 1]), es[|es| - 1]);
  }

  lemma {:induction false} UserAlways(k: Kluster, domain: string, es: seq<Event>)
    requires k.status.phase == Pending && AlwaysInSync(Created(k, domain), es)
    ensures UserInv(Run(k, domain, es))
    decreases |es|
  {
    hide Next, UserInv, AlwaysInSync, PhaseInSync, Inv, ReleaseInv;
    if es == [] {
      CreatedUserInv(k, domain);
    } else {
      var before := es[..|es| - 1];
      InSyncSnoc(Created(k, domain), es);
      UserAlways(k, domain, before);
      InvAlways(k, domain, before);
      ReleaseAlways(k, domain, before);
      UserNext(Run(k, domain, before), es[|es| - 1]);
    }
  }

  lemma CreatedUserInv(k: Kluster, domain: string)
    ensures UserInv(Created(k, domain))
  {
  }

  /** With the cached phase in step with the stored one, only a terminating kluster's record is deleted. */
  lemma DeletedWhileTerminating(k: Kluster, domain: string, es: seq<Event>, e: Event)
    requires k.status.phase == Pending && AlwaysInSync(Created(k, domain), es)
    requires Deletes(Run(k, domain, es), e)
    ensures Terminated(Run(k, domain, es))
  {
    UserAlways(k, domain, es);
    ReleaseAlways(k, domain, es);
    ReleaseNext(Run(k, domain, es), e);
  }
}
