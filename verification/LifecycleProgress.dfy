/** What has happened before a kluster is stored as Creating or Running, however stale the caches are. */
module LifecycleProgress {
  import opened Common
  import opened Klusters
  import opened Lifecycle
  import opened LifecycleProofs
  import opened LifecycleTheorems

  /** The worker sees a Creating version, and four ready pods. */
  predicate SeesReady(s: State, e: Event) {
    e.Handle? && s.task == Idle && e.podsReady == 4 &&
    e.cached < |s.hist| && s.hist[e.cached].status.phase == Creating
  }

  predicate SawReady(s: State, es: seq<Event>) {
    es != [] &&
    (SawReady(s, es[..|es| - 1]) || SeesReady(Exec(s, es[..|es| - 1]), es[|es| - 1]))
  }

  /** A worker that sees a Creating version seeds the kluster if and only if exactly four pods are ready. */
  lemma SeedsIff(s: State, cached: nat, podsReady: nat)
    requires s.task == Idle && cached < |s.hist|
    ensures HandleKey(s, cached, podsReady).task == Seeding <==> SeesReady(s, Handle(cached, podsReady))
    ensures s.hist[cached].status.phase == Creating && podsReady != 4 ==> HandleKey(s, cached, podsReady) == s
  {
    hide RequiresOpenstackInfo, RequiresKubernikusInfo;
  }

  predicate Toward(t: Task, w: Writer) {
    t == Rereading(w) || (t.Saving? && t.write.writer == w)
  }

  predicate Ever(hist: seq<Kluster>, phase: Phase) {
    exists v <- hist :: v.status.phase == phase
  }

  ghost predicate ProgressInv(s: State, sawReady: bool) {
    && (Ever(s.hist, Creating) || Toward(s.task, BECOME_CREATING) ==> s.secretSeen)
    && (Ever(s.hist, Running) || Toward(s.task, BECOME_RUNNING) || s.task.Seeding? ==> sawReady)
    && (sawReady ==> Ever(s.hist, Creating))
  }

  lemma PhaseWritten(w: Writer, k: Kluster)
    requires (RequestWriter(w) || GroundWriter(w)) && Modify(w, k).Some?
    ensures var phase := Modify(w, k).value.status.phase;
            && (phase == Creating ==> k.status.phase == Creating || w == BECOME_CREATING)
            && (phase == Running ==> k.status.phase == Running || w == BECOME_RUNNING)
  {
    ModifyKeeps(w, k);
  }

  /** A write that was stored was the worker's own or a request's. */
  lemma StoredBy(s: State, e: Event)
    requires Inv(s) && StoredWrite(s, e).Some?
    ensures var w := StoredWrite(s, e).value;
            (s.task.Saving? && w == s.task.write) || RequestWriter(w.writer)
  {
    hide HistInv, WriteOK, RequestWriter, GroundWriter;
  }

  lemma HistoryNext(s: State, e: Event)
    requires Inv(s)
    ensures Ever(s.hist, Creating) ==> Ever(Next(s, e).hist, Creating)
    ensures Ever(Next(s, e).hist, Creating) ==> Ever(s.hist, Creating) || Toward(s.task, BECOME_CREATING)
    ensures Ever(Next(s, e).hist, Running) ==> Ever(s.hist, Running) || Toward(s.task, BECOME_RUNNING)
  {
    hide Inv, Next, Modify, OnlyOwnFields, RequestWriter, GroundWriter, StoredWrite;
    StoredWriteFrame(s, e);
    var stored := StoredWrite(s, e);
    if stored.Some? {
      StoredWriteOK(s, e);
      StoredBy(s, e);
      assert s.Current() in s.hist;
      PhaseWritten(stored.value.writer, s.Current());
      assert RequestWriter(stored.value.writer) ==>
        stored.value.writer != BECOME_CREATING && stored.value.writer != BECOME_RUNNING by {
        NotPhaseChange(stored.value.writer);
      }
    }
  }

  lemma NotPhaseChange(w: Writer)
    ensures RequestWriter(w) ==> !w.PhaseChange?
  {
  }

  /** The task after an event, and whether a secret has been seen. */
  lemma TaskNext(s: State, e: Event)
    ensures s.secretSeen ==> Next(s, e).secretSeen
    ensures Toward(Next(s, e).task, BECOME_CREATING) ==> Toward(s.task, BECOME_CREATING) || Next(s, e).secretSeen
    ensures Toward(Next(s, e).task, BECOME_RUNNING) ==> Toward(s.task, BECOME_RUNNING) || s.task.Seeding?
    ensures Next(s, e).task.Seeding? ==> s.task.Seeding? || SeesReady(s, e)
  {
    hide Accepts, RequiresOpenstackInfo, RequiresKubernikusInfo, Modify, MayBegin;
    match e
    case Proceed(outcome) =>
      ProceedTask(s, outcome);
      hide Advance;
    case _ =>
  }

  lemma ProceedTask(s: State, outcome: Outcome)
    ensures var t := Advance(s, outcome);
            && (s.secretSeen ==> t.secretSeen) && !t.task.Seeding?
            && (Toward(t.task, BECOME_CREATING) ==> Toward(s.task, BECOME_CREATING) || t.secretSeen)
            && (Toward(t.task, BECOME_RUNNING) ==> Toward(s.task, BECOME_RUNNING) || s.task.Seeding?)
  {
    hide Accepts, Modify, AdvanceCreation, AdvanceTeardown, Store;
    if Creation(s.task) {
      CreationTask(s, outcome);
    } else if Teardown(s.task) {
      TeardownTask(s, outcome);
    } else if s.task.Saving? {
      SendSeen(s.(task := Idle), s.task.write, outcome);
      hide Send;
    }
  }

  lemma CreationTask(s: State, outcome: Outcome)
    requires Creation(s.task)
    ensures var t := AdvanceCreation(s, outcome);
            && (s.secretSeen ==> t.secretSeen)
            && (t.task.Idle? || t.task.InstallingRelease? || (t.task == Rereading(BECOME_CREATING) && t.secretSeen))
  {
  }

  lemma TeardownTask(s: State, outcome: Outcome)
    requires Teardown(s.task)
    ensures var t := AdvanceTeardown(s, outcome); t.secretSeen == s.secretSeen && (t.task.Idle? || Teardown(t.task))
  {
  }

  lemma SendSeen(s: State, w: Write, outcome: Outcome)
    ensures Send(s, w, outcome).secretSeen == s.secretSeen && Send(s, w, outcome).task == s.task
  {
  }

  lemma {:induction false} ProgressAlways(k: Kluster, domain: string, es: seq<Event>)
    requires k.status.phase == Pending
    ensures ProgressInv(Run(k, domain, es), SawReady(Created(k, domain), es))
    decreases |es|
  {
    hide Next, Inv, Toward, Ever, SeesReady;
    var s0 := Created(k, domain);
    if es == [] {
      NothingEver(k, domain);
    } else {
      var before, e := es[..|es| - 1], es[|es| - 1];
      var s := Run(k, domain, before);
      ProgressAlways(k, domain, before);
      InvAlways(k, domain, before);
      HistoryNext(s, e);
      TaskNext(s, e);
      if SeesReady(s, e) { ReadyCreating(s, e); }
    }
  }

  lemma ReadyCreating(s: State, e: Event)
    requires SeesReady(s, e)
    ensures Ever(s.hist, Creating)
  {
    assert s.hist[e.cached] in s.hist;
  }

  lemma NothingEver(k: Kluster, domain: string)
    requires k.status.phase == Pending
    ensures ProgressInv(Created(k, domain), false)
  {
  }

  /**
   In every run a stored Creating version means that the release was installed and brought the secret, and
   a stored Running one that the worker also saw a Creating version and exactly four ready pods.
   */
  lemma PhasesMean(k: Kluster, domain: string, es: seq<Event>, v: Kluster)
    requires k.status.phase == Pending && v in Run(k, domain, es).hist
    ensures v.status.phase == Creating || v.status.phase == Running ==> Run(k, domain, es).secretSeen
    ensures v.status.phase == Running ==> SawReady(Created(k, domain), es)
  {
    ProgressAlways(k, domain, es);
    hide Exec, SawReady;
    assert Ever(Run(k, domain, es).hist, v.status.phase);
  }
}
