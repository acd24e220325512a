/** Runs that a lagging cache permits, showing that the hypotheses of the phase results are needed. */
module LifecycleStaleRuns {
  import opened Common
  import opened Klusters
  import opened Lifecycle
  import opened LifecycleTheorems
  import opened LifecycleTeardown

  /** A new kluster whose OpenStack parameters were all given by the user. */
  predicate Preset(k: Kluster) {
    && k.status.phase == Pending
    && !RequiresOpenstackInfo(k) && RequiresKubernikusInfo(k) && NoNodesRunning(k)
  }

  function Located(k: Kluster, domain: string): Kluster {
    WithKubernikusInfo(k, k.name, domain)
  }

  lemma LocatedInformed(k: Kluster, domain: string)
    requires Preset(k)
    ensures Informed(Located(k, domain)) && Located(k, domain) != k && Located(k, domain).status.phase == Pending
  {
  }

  /** Creation without incident: discovery of the URLs, service user, release, phase change. */
  lemma ReachCreating(k: Kluster, domain: string) returns (es: seq<Event>)
    requires Preset(k)
    ensures Run(k, domain, es) ==
            State(domain, [k, Located(k, domain), WithPhase(Located(k, domain), Creating, "Creating Cluster")],
                  false, map[], Idle, true, true, true, true)
  {
    LocatedInformed(k, domain);
    var k1 := Located(k, domain);
    var k2 := WithPhase(k1, Creating, "Creating Cluster");
    var s0 := Created(k, domain);
    var s1 := Chain3(s0, Handle(0, 0), Proceed(Done), Proceed(Done));
    assert s1 == s0.(hist := [k, k1]);
    var s2 := Chain3(s1, Handle(1, 0), Proceed(Done), Proceed(Done));
    assert s2 == s1.(user := true, release := true, secret := true, secretSeen := true,
      task := Rereading(BECOME_CREATING));
    var s3 := Next(Next(s2, Proceed(Done)), Proceed(Done));
    assert [k, k1] + [k2] == [k, k1, k2];
    assert s3 == s2.(hist := [k, k1, k2], task := Idle);
    hide Next, Created;
    ExecChain3(s0, [], Handle(0, 0), Proceed(Done), Proceed(Done));
    var a := [] + [Handle(0, 0), Proceed(Done), Proceed(Done)];
    ExecChain3(s0, a, Handle(1, 0), Proceed(Done), Proceed(Done));
    var b := a + [Handle(1, 0), Proceed(Done), Proceed(Done)];
    ExecSnoc(s0, b, Proceed(Done));
    ExecSnoc(s0, b + [Proceed(Done)], Proceed(Done));
    es := b + [Proceed(Done)] + [Proceed(Done)];
  }

  function Chain3(s: State, a: Event, b: Event, c: Event): State {
    Next(Next(Next(s, a), b), c)
  }

  lemma ExecChain3(s: State, es: seq<Event>, a: Event, b: Event, c: Event)
    ensures Exec(s, es + [a, b, c]) == Chain3(Exec(s, es), a, b, c)
  {
    hide Next, Exec;
    ExecSnoc(s, es, a);
    ExecSnoc(s, es + [a], b);
    ExecSnoc(s, es + [a] + [b], c);
    assert es + [a] + [b] + [c] == es + [a, b, c];
  }

  /** ... then terminated through the API. */
  lemma ReachTerminating(k: Kluster, domain: string) returns (es: seq<Event>)
    requires Preset(k)
    ensures var k2 := WithPhase(Located(k, domain), Creating, "Creating Cluster");
            Run(k, domain, es) ==
            State(domain, [k, Located(k, domain), k2, WithPhase(k2, Terminating, "Cluster terminating")],
                  false, map[], Idle, true, true, true, true)
  {
    es := ReachCreating(k, domain);
    var s3 := Run(k, domain, es);
    var k2 := s3.hist[2];
    var k3 := WithPhase(k2, Terminating, "Cluster terminating");
    var write := Write(2, k3, TerminateCluster);
    assert s3.hist[0] == k;
    assert Next(s3, Begin(0, TerminateCluster, 0)) == s3.(inflight := map[0 := write]);
    assert map[0 := write] - {0} == map[];
    assert Next(Next(s3, Begin(0, TerminateCluster, 0)), Finish(0, Done)) == s3.(hist := s3.hist + [k3]);
    assert s3.hist + [k3] == [k, Located(k, domain), k2, k3];
    hide Next, Created;
    ExecSnoc(Created(k, domain), es, Begin(0, TerminateCluster, 0));
    ExecSnoc(Created(k, domain), es + [Begin(0, TerminateCluster, 0)], Finish(0, Done));
    es := es + [Begin(0, TerminateCluster, 0)] + [Finish(0, Done)];
  }

  /** A terminating kluster turns back into a running one when the handler still sees Creating. */
  lemma TerminatingTurnsRunning(k: Kluster, domain: string) returns (es: seq<Event>)
    requires Preset(k)
    ensures var hist := Run(k, domain, es).hist;
            |hist| == 5 && hist[3].status.phase == Terminating && hist[4].status.phase == Running
  {
    es := ReachTerminating(k, domain);
    var s4 := Run(k, domain, es);
    var k4 := WithPhase(s4.hist[3], Running, "");
    var s5 := Chain3(s4, Handle(2, 4), Proceed(Done), Proceed(Done));
    assert s5 == s4.(task := Saving(Write(3, k4, BECOME_RUNNING)));
    assert Next(s5, Proceed(Done)) == s4.(hist := s4.hist + [k4]);
    hide Next, Created;
    ExecChain3(Created(k, domain), es, Handle(2, 4), Proceed(Done), Proceed(Done));
    es := es + [Handle(2, 4), Proceed(Done), Proceed(Done)];
    ExecSnoc(Created(k, domain), es, Proceed(Done));
    es := es + [Proceed(Done)];
  }

  /** Teardown that removed user and release, but failed to delete the record. */
  lemma TeardownChain(s: State)
    requires s.task == Idle && |s.hist| == 4 && s.hist[3].status.phase == Terminating && s.secret && !s.deleted
    ensures Chain3(Chain3(s, Handle(3, 0), Proceed(Done), Proceed(Done)),
                   Proceed(Done), Proceed(Failed(false, false)), Proceed(Done)) ==
            s.(user := false, release := false, secret := false)
  {
    var t := Chain3(s, Handle(3, 0), Proceed(Done), Proceed(Done));
    assert t == s.(user := false, task := DeletingRelease);
  }

  /** A handler that sees an informed pending version creates the user; the release fails; then teardown goes on. */
  lemma RecreateChain(s: State)
    requires s.task == Idle && |s.hist| == 4 && s.hist[3].status.phase == Terminating && !s.secret && !s.release &&
      !s.deleted
    requires s.hist[1].status.phase == Pending && Informed(s.hist[1])
    ensures Chain3(Chain3(s, Handle(1, 0), Proceed(Done), Proceed(Failed(false, false))),
                   Handle(3, 0), Proceed(Done), Proceed(Done)) ==
            s.(user := true, task := DeletingRecord)
  {
    var t := Chain3(s, Handle(1, 0), Proceed(Done), Proceed(Failed(false, false)));
    assert t == s.(user := true);
  }

  /**
   A handler that still sees Pending recreates the user after teardown removed it; the record then
   goes without it.
   */
  lemma StaleCreationOrphansUser(k: Kluster, domain: string) returns (es: seq<Event>, e: Event)
    requires Preset(k)
    ensures Deletes(Run(k, domain, es), e)
    ensures Run(k, domain, es).secretSeen && Run(k, domain, es).user
  {
    es := ReachTerminating(k, domain);
    LocatedInformed(k, domain);
    var s0 := Created(k, domain);
    var s4 := Run(k, domain, es);
    TeardownChain(s4);
    var s5 := s4.(user := false, release := false, secret := false);
    RecreateChain(s5);
    e := Proceed(Done);
    assert Deletes(s5.(user := true, task := DeletingRecord), e);
    var no := Proceed(Failed(false, false));
    hide Next, Created, Chain3, Deletes;
    ExecChain3(s0, es, Handle(3, 0), e, e);
    es := es + [Handle(3, 0), e, e];
    ExecChain3(s0, es, e, no, e);
    es := es + [e, no, e];
    ExecChain3(s0, es, Handle(1, 0), e, no);
    es := es + [Handle(1, 0), e, no];
    ExecChain3(s0, es, Handle(3, 0), e, e);
    es := es + [Handle(3, 0), e, e];
  }
}
