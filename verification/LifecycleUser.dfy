/** When a service user survives its kluster: the exact conditions, for caches however stale. */
module LifecycleUser {
  import opened Common
  import opened Klusters
  import opened Lifecycle
  import opened LifecycleProofs
  import opened LifecycleTheorems
  import opened LifecycleTeardown
  import opened LifecycleStaleRuns

  // ----- A user without its secret ------------------------------------------------------------

  /** The creation of the service user takes effect although the kluster's secret is already gone. */
  predicate Orphans(s: State, e: Event) {
    e.Proceed? && s.task.CreatingUser? && TornDown(s) && (e.outcome == Done || e.outcome.applied)
  }

  ghost predicate NeverOrphans(s: State, es: seq<Event>) {
    forall n :: 0 <= n < |es| ==> !Orphans(Exec(s, es[..n]), es[n])
  }

  /** Once the secret is gone again, the user is gone, too. */
  predicate UserFollowsSecret(s: State) {
    TornDown(s) ==> !s.user
  }

  ghost predicate FollowInv(s: State) {
    && UserFollowsSecret(s)
    && (s.task.DeletingRelease? && s.secret ==> !s.user)
    && (s.task.DeletingRecord? ==> !s.secret)
  }

  lemma FollowNext(s: State, e: Event)
    requires FollowInv(s)
    ensures Orphans(s, e) ==> !UserFollowsSecret(Next(s, e))
    ensures !Orphans(s, e) ==> FollowInv(Next(s, e))
  {
    match e
    case Handle(cached, podsReady) => hide RequiresOpenstackInfo, RequiresKubernikusInfo;
    case Proceed(outcome) =>
      FollowProceed(s, outcome);
      hide Advance, FollowInv, Orphans, UserFollowsSecret;
    case _ =>
      RequestUser(s, e);
      hide Next;
  }

  lemma FollowProceed(s: State, outcome: Outcome)
    requires FollowInv(s)
    ensures Orphans(s, Proceed(outcome)) ==> !UserFollowsSecret(Advance(s, outcome))
    ensures !Orphans(s, Proceed(outcome)) ==> FollowInv(Advance(s, outcome))
  {
    if s.task.Saving? || s.task.Rereading? {
      SaveUser(s, outcome);
      hide Advance;
    }
    hide Reread, Send;
  }

  /** In every state of a run the user follows the secret exactly if no creation in it orphans the user. */
  lemma {:induction false} UserFollowsIff(k: Kluster, domain: string, es: seq<Event>)
    ensures (forall n :: 0 <= n <= |es| ==> UserFollowsSecret(Run(k, domain, es[..n]))) <==>
            NeverOrphans(Created(k, domain), es)
  {
    var s := Created(k, domain);
    if NeverOrphans(s, es) {
      forall n | 0 <= n <= |es| ensures UserFollowsSecret(Run(k, domain, es[..n])) {
        OrphansPrefix(s, es, n);
        FollowAlways(k, domain, es[..n]);
      }
    } else {
      var n := FirstOrphaning(s, es);
      FollowAlways(k, domain, es[..n]);
      FollowNext(Run(k, domain, es[..n]), es[n]);
      assert es[..n + 1][..n] == es[..n];
      assert !UserFollowsSecret(Run(k, domain, es[..n + 1])) by { hide Orphans, UserFollowsSecret, Next; }
    }
  }

  lemma {:induction false} FollowAlways(k: Kluster, domain: string, es: seq<Event>)
    requires NeverOrphans(Created(k, domain), es)
    ensures FollowInv(Run(k, domain, es))
    decreases |es|
  {
    hide Next, FollowInv, Orphans;
    if es == [] {
      CreatedFollowInv(k, domain);
    } else {
      var n := |es| - 1;
      OrphansPrefix(Created(k, domain), es, n);
      FollowAlways(k, domain, es[..n]);
      FollowNext(Run(k, domain, es[..n]), es[n]);
    }
  }

  lemma CreatedFollowInv(k: Kluster, domain: string)
    ensures FollowInv(Created(k, domain))
  {
  }

  lemma OrphansPrefix(s: State, es: seq<Event>, m: nat)
    requires m <= |es| && NeverOrphans(s, es)
    ensures NeverOrphans(s, es[..m])
  {
    hide Exec, Orphans;
    forall n | 0 <= n < m ensures !Orphans(Exec(s, es[..m][..n]), es[..m][n]) {
      assert es[..m][..n] == es[..n];
    }
  }

  lemma {:induction false} FirstOrphaning(s: State, es: seq<Event>) returns (n: nat)
    requires !NeverOrphans(s, es)
    ensures n < |es| && Orphans(Exec(s, es[..n]), es[n]) && NeverOrphans(s, es[..n])
    decreases |es|
  {
    hide Exec, Orphans;
    var last := |es| - 1;
    if NeverOrphans(s, es[..last]) {
      n := last;
      assert forall i :: 0 <= i < last ==> es[..last][..i] == es[..i];
      assert Orphans(Exec(s, es[..last]), es[last]) by {
        var i :| 0 <= i < |es| && Orphans(Exec(s, es[..i]), es[i]);
        if i < last {
          assert false;
        }
      }
    } else {
      n := FirstOrphaning(s, es[..last]);
      assert es[..last][..n] == es[..n];
    }
  }

  /** In step with the store, no creation comes after a teardown. */
  lemma InStepNeverOrphans(k: Kluster, domain: string, es: seq<Event>)
    requires k.status.phase == Pending && AlwaysInSync(Created(k, domain), es)
    ensures NeverOrphans(Created(k, domain), es)
  {
    hide PhaseInSync, Next;
    forall n | 0 <= n < |es| ensures !Orphans(Exec(Created(k, domain), es[..n]), es[n]) {
      assert forall i :: 0 <= i < n ==> es[..n][..i] == es[..i];
      UserAlways(k, domain, es[..n]);
    }
  }

  /**
   However stale the caches: deletion comes after release and user, unless the secret never came or
   a creation orphaned the user.
   */
  lemma DeletedAfterUser(k: Kluster, domain: string, es: seq<Event>, e: Event)
    requires Deletes(Run(k, domain, es), e)
    requires NeverOrphans(Created(k, domain), es)
    ensures !Run(k, domain, es).release
    ensures Run(k, domain, es).secretSeen ==> !Run(k, domain, es).user
  {
    FollowAlways(k, domain, es);
    DeletedAfterRelease(k, domain, es, e);
  }

  // ----- A cache that only moves forward ----------------------------------------------------------

  /** The worker takes the key, with the version its cache shows. */
  predicate Takes(s: State, e: Event) {
    e.Handle? && s.task == Idle && e.cached < |s.hist|
  }

  /** The version that the worker last took the key with. */
  function LastTaken(s: State, es: seq<Event>): Option<nat> {
    if es == [] then None
    else
      var before, e := es[..|es| - 1], es[|es| - 1];
      if Takes(Exec(s, before), e) then Some(e.cached) else LastTaken(s, before)
  }

  /** The cache may lag as it likes, but never shows an older version than before. */
  ghost predicate Forward(s: State, es: seq<Event>) {
    forall n :: 0 <= n < |es| && Takes(Exec(s, es[..n]), es[n]) ==>
      var last := LastTaken(s, es[..n]); last.Some? ==> last.value <= es[n].cached
  }

  /** Once past Pending the record never is Pending again. */
  predicate PendingFirst(hist: seq<Kluster>) {
    forall i, j :: 0 <= i <= j < |hist| && hist[j].status.phase == Pending ==> hist[i].status.phase == Pending
  }

  ghost predicate ForwardInv(s: State, last: Option<nat>) {
    && PendingFirst(s.hist)
    && (last.Some? ==> last.value < |s.hist|)
    && (TornDown(s) || Teardown(s.task) ==> last.Some? && s.hist[last.value].status.phase != Pending)
    && (Creation(s.task) ==> last.Some? && s.hist[last.value].status.phase == Pending)
  }

  lemma PendingStays(s: State, e: Event)
    requires Inv(s) && PendingFirst(s.hist)
    ensures PendingFirst(Next(s, e).hist) && s.hist <= Next(s, e).hist
  {
    hide Next, StoredWrite, Inv, Modify, OnlyOwnFields, GroundWriter, RequestWriter;
    StoredWriteFrame(s, e);
    assert |s.hist| > 0 by { SomeHistory(s); }
    if StoredWrite(s, e).Some? {
      StoredWriteOK(s, e);
      NotToPending(StoredWrite(s, e).value.writer, s.Current());
    }
  }

  lemma SomeHistory(s: State)
    requires Inv(s)
    ensures |s.hist| > 0
  {
  }

  lemma NotToPending(w: Writer, k: Kluster)
    requires (RequestWriter(w) || GroundWriter(w)) && Modify(w, k).Some?
    ensures Modify(w, k).value.status.phase == Pending ==> k.status.phase == Pending
  {
  }

  lemma ForwardNext(s: State, e: Event, last: Option<nat>)
    requires Inv(s) && ForwardInv(s, last)
    requires Takes(s, e) && last.Some? ==> last.value <= e.cached
    ensures ForwardInv(Next(s, e), if Takes(s, e) then Some(e.cached) else last)
    ensures !Orphans(s, e)
  {
    PendingStays(s, e);
    hide Inv, PendingFirst;
    match e
    case Handle(cached, podsReady) =>
      if Takes(s, e) { ForwardHandle(s, cached, podsReady, last); }
    case Proceed(outcome) =>
      ForwardProceed(s, outcome);
      hide Advance;
    case _ =>
      RequestUser(s, e);
      hide Next;
  }

  lemma ForwardHandle(s: State, cached: nat, podsReady: nat, last: Option<nat>)
    requires ForwardInv(s, last) && s.task == Idle && cached < |s.hist| && (last.Some? ==> last.value <= cached)
    ensures ForwardInv(HandleKey(s, cached, podsReady), Some(cached))
  {
    hide RequiresOpenstackInfo, RequiresKubernikusInfo;
  }

  /** The worker enters creation and teardown only when it takes the key. */
  lemma ForwardProceed(s: State, outcome: Outcome)
    ensures var t := Advance(s, outcome);
            && (TornDown(t) ==> TornDown(s) || Teardown(s.task))
            && (Teardown(t.task) ==> Teardown(s.task)) && (Creation(t.task) ==> Creation(s.task))
  {
    if s.task.Saving? || s.task.Rereading? {
      SaveUser(s, outcome);
      hide Advance;
    }
    hide Reread, Send;
  }

  lemma {:induction false} ForwardAlways(k: Kluster, domain: string, es: seq<Event>)
    requires k.status.phase == Pending && Forward(Created(k, domain), es)
    ensures ForwardInv(Run(k, domain, es), LastTaken(Created(k, domain), es))
    ensures NeverOrphans(Created(k, domain), es)
    decreases |es|
  {
    hide Next, Inv, Orphans, ForwardInv, Takes;
    var s := Created(k, domain);
    if es == [] {
      ForwardBegins(k, domain);
    } else {
      var n := |es| - 1;
      assert Forward(s, es[..n]) by { ForwardPrefix(s, es); }
      ForwardAlways(k, domain, es[..n]);
      InvAlways(k, domain, es[..n]);
      ForwardNext(Run(k, domain, es[..n]), es[n], LastTaken(s, es[..n]));
      OrphansSnoc(s, es);
    }
  }

  lemma ForwardBegins(k: Kluster, domain: string)
    requires k.status.phase == Pending
    ensures ForwardInv(Created(k, domain), None)
  {
  }

  lemma ForwardPrefix(s: State, es: seq<Event>)
    requires es != [] && Forward(s, es)
    ensures Forward(s, es[..|es| - 1])
  {
    hide Exec, Takes, LastTaken;
    var before := es[..|es| - 1];
    assert forall n :: 0 <= n < |before| ==> before[..n] == es[..n] && before[n] == es[n];
  }

  lemma OrphansSnoc(s: State, es: seq<Event>)
    requires es != [] && NeverOrphans(s, es[..|es| - 1]) && !Orphans(Exec(s, es[..|es| - 1]), es[|es| - 1])
    ensures NeverOrphans(s, es)
  {
    hide Exec, Orphans;
    var before := es[..|es| - 1];
    forall n | 0 <= n < |es| ensures !Orphans(Exec(s, es[..n]), es[n]) {
      if n < |before| { assert before[..n] == es[..n] && !Orphans(Exec(s, before[..n]), before[n]); }
    }
  }

  /** With a cache that never goes back, however far it lags, no creation comes after a teardown. */
  lemma ForwardNeverOrphans(k: Kluster, domain: string, es: seq<Event>)
    requires k.status.phase == Pending && Forward(Created(k, domain), es)
    ensures NeverOrphans(Created(k, domain), es)
  {
    ForwardAlways(k, domain, es);
  }

  /** Then a deleted record leaves its user behind only if no release ever brought the secret. */
  lemma ForwardUserSurvives(k: Kluster, domain: string, es: seq<Event>, e: Event)
    requires k.status.phase == Pending && Forward(Created(k, domain), es)
    requires Deletes(Run(k, domain, es), e) && Run(k, domain, es).user
    ensures !Run(k, domain, es).secretSeen
  {
    ForwardAlways(k, domain, es);
    DeletedAfterUser(k, domain, es, e);
  }

  // ----- A teardown that skips the user --------------------------------------------------------

  /** terminateKluster finds no secret, and so leaves a user alone that exists. */
  predicate Skips(s: State, e: Event) {
    e == Proceed(Done) && s.task.LookingUpSecret? && !s.secret && s.user
  }

  /** The last look for the secret in a run skipped the user. */
  predicate Skipped(s: State, es: seq<Event>) {
    if es == [] then false
    else
      var before, e := es[..|es| - 1], es[|es| - 1];
      var t := Exec(s, before);
      if e.Proceed? && t.task.LookingUpSecret? then Skips(t, e) else Skipped(s, before)
  }

  ghost predicate SkipInv(s: State, skipped: bool) {
    && (s.task.DeletingUser? ==> !skipped)
    && (s.task.DeletingRelease? || s.task.DeletingRecord? ==> (s.user <==> skipped))
  }

  lemma SkipNext(s: State, e: Event, skipped: bool)
    requires SkipInv(s, skipped)
    ensures SkipInv(Next(s, e), if e.Proceed? && s.task.LookingUpSecret? then Skips(s, e) else skipped)
  {
    match e
    case Handle(cached, podsReady) => hide RequiresOpenstackInfo, RequiresKubernikusInfo;
    case Proceed(outcome) =>
      SkipProceed(s, outcome, skipped);
      hide Advance, SkipInv, Skips;
    case _ =>
      RequestUser(s, e);
      hide Next;
  }

  lemma SkipProceed(s: State, outcome: Outcome, skipped: bool)
    requires SkipInv(s, skipped)
    ensures SkipInv(Advance(s, outcome), if s.task.LookingUpSecret? then Skips(s, Proceed(outcome)) else skipped)
  {
    if s.task.Saving? || s.task.Rereading? {
      SaveUser(s, outcome);
      hide Advance;
    } else if Creation(s.task) {
      CreationFrame(s, outcome);
      hide AdvanceTeardown, AdvanceCreation;
    }
    hide Reread, Send, AdvanceCreation;
  }

  lemma {:induction false} SkipAlways(k: Kluster, domain: string, es: seq<Event>)
    ensures SkipInv(Run(k, domain, es), Skipped(Created(k, domain), es))
    decreases |es|
  {
    hide Next, Skips;
    if es != [] {
      var n := |es| - 1;
      SkipAlways(k, domain, es[..n]);
      SkipNext(Run(k, domain, es[..n]), es[n], Skipped(Created(k, domain), es[..n]));
    }
  }

  /**
   A deleted record leaves its service user behind exactly if the deleting teardown skipped the
   user; and it does that only if no release ever brought the secret, or some creation came after
   a teardown.
   */
  lemma UserSurvivesIff(k: Kluster, domain: string, es: seq<Event>, e: Event)
    requires Deletes(Run(k, domain, es), e)
    ensures Run(k, domain, es).user <==> Skipped(Created(k, domain), es)
    ensures Run(k, domain, es).user ==> !Run(k, domain, es).secretSeen || !NeverOrphans(Created(k, domain), es)
  {
    SkipAlways(k, domain, es);
    ReleaseAlways(k, domain, es);
    ReleaseNext(Run(k, domain, es), e);
    if NeverOrphans(Created(k, domain), es) { DeletedAfterUser(k, domain, es, e); }
  }

  // ----- It happens in step with the store, too ---------------------------------------------------

  /** The ground worker's cache shows the current version whenever it takes the key. */
  ghost predicate AlwaysCurrent(s: State, es: seq<Event>) {
    forall n :: 0 <= n < |es| && es[n].Handle? ==> es[n].cached + 1 == |Exec(s, es[..n]).hist|
  }

  lemma StepOn(s: State, es: seq<Event>, t: State, e: Event)
    requires Exec(s, es) == t && AlwaysInSync(s, es) && AlwaysCurrent(s, es)
    requires PhaseInSync(t, e) && (e.Handle? ==> e.cached + 1 == |t.hist|)
    ensures Exec(s, es + [e]) == Next(t, e) && AlwaysInSync(s, es + [e]) && AlwaysCurrent(s, es + [e])
  {
    hide Next, PhaseInSync, Exec;
    ExecSnoc(s, es, e);
    var all := es + [e];
    forall n | 0 <= n < |all|
      ensures PhaseInSync(Exec(s, all[..n]), all[n])
      ensures all[n].Handle? ==> all[n].cached + 1 == |Exec(s, all[..n]).hist|
    {
      if n < |es| { assert all[..n] == es[..n]; } else { assert all[..n] == es; }
    }
  }

  lemma ThreeOn(s: State, es: seq<Event>, t: State, a: Event, b: Event, c: Event)
    requires Exec(s, es) == t && AlwaysInSync(s, es) && AlwaysCurrent(s, es)
    requires a.Handle? ==> a.cached + 1 == |t.hist|
    requires !b.Handle? && !c.Handle?
    requires InStep3(t, a, b, c)
    ensures Exec(s, es + [a, b, c]) == Chain3(t, a, b, c)
    ensures AlwaysInSync(s, es + [a, b, c]) && AlwaysCurrent(s, es + [a, b, c])
  {
    hide Next, PhaseInSync, Exec, AlwaysInSync, AlwaysCurrent;
    StepOn(s, es, t, a);
    StepOn(s, es + [a], Next(t, a), b);
    StepOn(s, es + [a] + [b], Next(Next(t, a), b), c);
    assert es + [a] + [b] + [c] == es + [a, b, c];
  }

  /** A chain of three of the worker's events in step with the store. */
  predicate InStep3(t: State, a: Event, b: Event, c: Event) {
    PhaseInSync(t, a) && PhaseInSync(Next(t, a), b) && PhaseInSync(Next(Next(t, a), b), c)
  }

  lemma LocateInStep(k: Kluster, domain: string)
    requires Preset(k)
    ensures var s := Created(k, domain);
            InStep3(s, Handle(0, 0), Proceed(Done), Proceed(Done)) &&
            Chain3(s, Handle(0, 0), Proceed(Done), Proceed(Done)) == s.(hist := [k, Located(k, domain)])
  {
    LocatedInformed(k, domain);
    assert [k] + [Located(k, domain)] == [k, Located(k, domain)];
  }

  lemma FailedInstallInStep(s: State)
    requires |s.hist| == 2 && !s.deleted && s.task == Idle && !s.release && !s.secret && !s.secretSeen
    requires s.hist[1].status.phase == Pending && Informed(s.hist[1])
    ensures InStep3(s, Handle(1, 0), Proceed(Done), Proceed(Failed(false, false)))
    ensures Chain3(s, Handle(1, 0), Proceed(Done), Proceed(Failed(false, false))) == s.(user := true)
  {
  }

  lemma TerminateInStep(s: State)
    requires |s.hist| == 2 && !s.deleted && s.inflight == map[] && NoNodesRunning(s.hist[0])
    requires s.hist[1].status.phase == Pending
    ensures var e := Begin(0, TerminateCluster, 0);
            && PhaseInSync(s, e) && PhaseInSync(Next(s, e), Finish(0, Done))
            && Next(Next(s, e), Finish(0, Done)) ==
               s.(hist := s.hist + [WithPhase(s.hist[1], Terminating, "Cluster terminating")])
  {
    var v := WithPhase(s.hist[1], Terminating, "Cluster terminating");
    var w := Write(1, v, TerminateCluster);
    assert Next(s, Begin(0, TerminateCluster, 0)) == s.(inflight := map[0 := w]);
    assert map[0 := w] - {0} == map[];
  }

  lemma TeardownInStep(s: State)
    requires |s.hist| == 3 && !s.deleted && s.task == Idle && !s.secret && !s.release
    requires s.hist[2].status.phase == Terminating
    ensures InStep3(s, Handle(2, 0), Proceed(Done), Proceed(Done))
    ensures Chain3(s, Handle(2, 0), Proceed(Done), Proceed(Done)) == s.(task := DeletingRecord)
    ensures Deletes(s.(task := DeletingRecord), Proceed(Done))
  {
  }

  /**
   Even with a cache that is always current: after a failed installation there is a user but no
   secret, and teardown deletes the record without the user.
   */
  lemma FailedInstallLeavesUser(k: Kluster, domain: string) returns (es: seq<Event>, e: Event)
    requires Preset(k)
    ensures AlwaysInSync(Created(k, domain), es) && AlwaysCurrent(Created(k, domain), es)
    ensures Deletes(Run(k, domain, es), e)
    ensures Run(k, domain, es).user && !Run(k, domain, es).secretSeen
  {
    var s0, done, no := Created(k, domain), Proceed(Done), Proceed(Failed(false, false));
    var k1 := Located(k, domain);
    LocatedInformed(k, domain);
    LocateInStep(k, domain);
    var s1 := s0.(hist := [k, k1]);
    FailedInstallInStep(s1);
    var s2 := s1.(user := true);
    assert s2.hist[0] == k;
    TerminateInStep(s2);
    var s3 := s2.(hist := s2.hist + [WithPhase(k1, Terminating, "Cluster terminating")]);
    TeardownInStep(s3);
    es, e := [], done;
    hide Next, PhaseInSync, Located, WithPhase, Informed, Preset, Deletes, NoNodesRunning, Exec;
    assert Exec(s0, []) == s0 && AlwaysInSync(s0, []) && AlwaysCurrent(s0, []) by { NothingYet(s0); }
    hide AlwaysInSync, AlwaysCurrent, Chain3;
    ThreeOn(s0, es, s0, Handle(0, 0), done, done);
    es := es + [Handle(0, 0), done, done];
    ThreeOn(s0, es, s1, Handle(1, 0), done, no);
    es := es + [Handle(1, 0), done, no];
    StepOn(s0, es, s2, Begin(0, TerminateCluster, 0));
    es := es + [Begin(0, TerminateCluster, 0)];
    StepOn(s0, es, Next(s2, Begin(0, TerminateCluster, 0)), Finish(0, Done));
    es := es + [Finish(0, Done)];
    ThreeOn(s0, es, s3, Handle(2, 0), done, done);
    es := es + [Handle(2, 0), done, done];
  }

  lemma NothingYet(s: State)
    ensures Exec(s, []) == s && AlwaysInSync(s, []) && AlwaysCurrent(s, [])
  {
  }
}
