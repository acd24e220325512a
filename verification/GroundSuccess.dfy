/** When a call of the ground controller's handler reports no error, and what is done then. */
module GroundSuccess {
  import opened Common
  import opened Klusters
  import opened Lifecycle
  import opened LifecycleProofs
  import opened LifecycleTheorems
  import opened GroundRuns
  import opened GroundPhases

  // ----- Teardown ---------------------------------------------------------------------------------

  /** What requests of others have no part in. */
  predicate SameWorld(s: State, t: State) {
    && t.task == s.task && t.deleted == s.deleted
    && t.user == s.user && t.release == s.release && t.secret == s.secret
  }

  lemma RequestKeepsWorld(s: State, e: Event)
    requires e.Begin? || e.Finish?
    ensures SameWorld(s, Next(s, e))
  {
    hide Modify, MayBegin;
  }

  lemma {:induction false} RequestsKeepWorld(s: State, es: seq<Event>)
    requires Requests(es)
    ensures SameWorld(s, Exec(s, es))
    decreases |es|
  {
    hide Next;
    if es != [] {
      RequestsKeepWorld(s, es[..|es| - 1]);
      RequestKeepsWorld(Exec(s, es[..|es| - 1]), es[|es| - 1]);
    }
  }

  /** The calls of a teardown: the secret, the user if there is one, the release and the record. */
  function TeardownCalls(s: State): nat {
    match s.task
    case LookingUpSecret => if s.secret then 4 else 3
    case DeletingUser => 3
    case DeletingRelease => 2
    case DeletingRecord => 1
    case _ => 0
  }

  ghost predicate AllDone(turns: nat -> Turn, n: nat, count: nat) {
    forall i :: n <= i < n + count ==> turns(i).outcome == Done
  }

  /** The user goes if there is a secret that names it. */
  predicate GoesForUser(s: State) {
    s.task.DeletingUser? || (s.task.LookingUpSecret? && s.secret)
  }

  lemma TeardownAdvances(s: State)
    requires Teardown(s.task) && !s.task.DeletingRecord?
    ensures var t := AdvanceTeardown(s, Done);
            && Teardown(t.task) && TeardownCalls(t) == TeardownCalls(s) - 1 && t.deleted == s.deleted
            && t.user == (s.user && !s.task.DeletingUser?)
            && t.release == (s.release && !s.task.DeletingRelease?)
            && t.secret == (s.secret && !s.task.DeletingRelease?)
            && (GoesForUser(t) <==> s.task.LookingUpSecret? && s.secret)
            && (t.task.DeletingRecord? <==> s.task.DeletingRelease?)
  {
  }

  lemma TeardownStops(s: State, outcome: Outcome)
    requires Teardown(s.task) && (outcome != Done || s.task.DeletingRecord?)
    ensures AdvanceTeardown(s, outcome).task == Idle
    ensures outcome == Done ==> AdvanceTeardown(s, outcome) == s.(deleted := true, task := Idle)
  {
  }

  lemma TeardownFails(s: State, turn: Turn)
    requires Teardown(s.task)
    ensures Fails(s, turn) <==> turn.outcome != Done || (s.task.DeletingRecord? && s.deleted)
  {
  }

  lemma TeardownReplies(s: State, turn: Turn)
    requires Teardown(s.task)
    ensures Next(s, Reply(s, turn)) == AdvanceTeardown(s, turn.outcome)
  {
  }

  /**
   A teardown reports no error if and only if the record was there and all its calls ended well; then
   the record is gone, and with it the release, the secret and, if a secret named it, the user.
   */
  lemma {:induction false} TeardownSucceedsIff(s: State, turns: nat -> Turn, n: nat)
    requires Scheduled(turns) && Teardown(s.task)
    ensures !DriveFails(s, turns, n) <==> !s.deleted && AllDone(turns, n, TeardownCalls(s))
    ensures !DriveFails(s, turns, n) ==>
              var end := Drive(s, turns, n);
              && end.deleted && end.user == (s.user && !GoesForUser(s))
              && end.release == (s.release && s.task.DeletingRecord?)
              && end.secret == (s.secret && s.task.DeletingRecord?)
    decreases TeardownCalls(s)
  {
    hide Drive, DriveFails, Exec, Next, Reply, AdvanceTeardown, Fails;
    var before, t := Exec(s, turns(n).others), Step(s, turns(n));
    RequestsKeepWorld(s, turns(n).others);
    TeardownReplies(before, turns(n));
    TeardownFails(before, turns(n));
    Progress(s, t, turns, n);
    if turns(n).outcome != Done || s.task.DeletingRecord? {
      TeardownStops(before, turns(n).outcome);
    } else {
      TeardownAdvances(before);
      TeardownSucceedsIff(t, turns, n + 1);
    }
  }

  // ----- Discovery -----------------------------------------------------------------------------------

  /** A ground writer's Get and Update both get through, and nobody stores a version in between. */
  ghost predicate Rewrites(s: State, writer: Writer, turns: nat -> Turn, n: nat) {
    var get := Exec(s, turns(n).others);
    var update := Exec(Step(s, turns(n)), turns(n + 1).others);
    && !s.deleted && get.hist != []
    && turns(n).outcome == Done && turns(n + 1).outcome == Done
    && Modify(writer, get.Current()).Some? && |update.hist| == |get.hist|
  }

  /** A discovery reports no error if and only if that is so; then its result is the current version. */
  lemma RewriteSucceedsIff(s: State, turns: nat -> Turn, n: nat)
    requires Scheduled(turns) && s.task.Rereading? && GroundWriter(s.task.writer) && !s.task.writer.PhaseChange?
    ensures !DriveFails(s, turns, n) <==> Rewrites(s, s.task.writer, turns, n)
    ensures !DriveFails(s, turns, n) ==>
              var end := Drive(s, turns, n);
              && |end.hist| > 0 && !end.deleted && Exec(s, turns(n).others).hist != []
              && Modify(s.task.writer, Exec(s, turns(n).others).Current()) == Some(end.Current())
  {
    hide Drive, DriveFails, Exec, Modify, Next, Reply;
    var w := s.task.writer;
    var before, sent := Exec(s, turns(n).others), Step(s, turns(n));
    RequestsKeepWorld(s, turns(n).others);
    Progress(s, sent, turns, n);
    GetReplies(before, turns(n));
    if sent.task.Saving? { SaveSucceedsIff(sent, turns, n + 1); }
  }

  /** The Get of a discovery, and whether it is reported as failed. */
  lemma GetReplies(s: State, turn: Turn)
    requires s.task.Rereading? && GroundWriter(s.task.writer) && !s.task.writer.PhaseChange?
    ensures var w := s.task.writer;
            var sends := turn.outcome == Done && !s.deleted && s.hist != [] && Modify(w, s.Current()).Some?;
            && (Fails(s, turn) <==> !sends)
            && Next(s, Reply(s, turn)) ==
               s.(task := if sends then Saving(Write(|s.hist| - 1, Modify(w, s.Current()).value, w)) else Idle)
  {
    hide WithOpenstackInfo, WithKubernikusInfo;
  }

  /** And its Update. */
  lemma SaveSucceedsIff(s: State, turns: nat -> Turn, n: nat)
    requires Scheduled(turns) && s.task.Saving? && !s.task.write.writer.PhaseChange?
    requires |s.hist| > 0 && s.task.write.base == |s.hist| - 1
    ensures var update := Exec(s, turns(n).others);
            !DriveFails(s, turns, n) <==> turns(n).outcome == Done && !s.deleted && |update.hist| == |s.hist|
    ensures !DriveFails(s, turns, n) ==>
              var end := Drive(s, turns, n);
              |end.hist| > 0 && !end.deleted && end.Current() == s.task.write.value
  {
    hide Drive, DriveFails, Exec;
    RequestsKeepWorld(s, turns(n).others);
    Progress(s, Step(s, turns(n)), turns, n);
  }

  // ----- Any call of the handler -----------------------------------------------------------------------

  /**
   Which calls have to end well, from any task that the handler starts with: those of a teardown; listing,
   Get and Update of a discovery; the user and the release; seeding. A phase change may fail.
   */
  ghost predicate EndsWell(s: State, turns: nat -> Turn) {
    match s.task
    case Idle => true
    case ListingRouters(account) =>
      turns(0).outcome == Done &&
      Rewrites(Step(s, turns(0)), OpenstackDiscovery(account, turns(0).routers, turns(0).group), turns, 1)
    case Rereading(writer) => writer.PhaseChange? || Rewrites(s, writer, turns, 0)
    case CreatingUser => AllDone(turns, 0, 2)
    case Seeding => AllDone(turns, 0, 1)
    case _ => !s.deleted && AllDone(turns, 0, TeardownCalls(s))
  }

  /** What a handler starts with. */
  predicate Starts(t: Task) {
    t.Idle? || t.ListingRouters? || (t.Rereading? && GroundWriter(t.writer)) || t.CreatingUser? || t.Seeding? ||
    t.LookingUpSecret?
  }

  /** The handler reports no error if and only if these calls end well. */
  lemma SucceedsIff(s: State, turns: nat -> Turn)
    requires Scheduled(turns) && Starts(s.task)
    ensures !DriveFails(s, turns, 0) <==> EndsWell(s, turns)
  {
    hide Drive, DriveFails, Exec, Rewrites, Step, Modify, Misses, StoresPhase;
    match s.task
    case Idle => IdleSucceeds(s, turns);
    case ListingRouters(account) => ListingSucceedsIff(s, turns);
    case Rereading(writer) =>
      if writer.PhaseChange? { PhaseStoredIff(s, turns, 0); } else { RewriteSucceedsIff(s, turns, 0); }
    case CreatingUser => CreationSucceedsIff(s, turns);
    case Seeding => StartSucceedsIff(s, turns);
    case LookingUpSecret => TeardownSucceedsIff(s, turns, 0);
  }

  lemma IdleSucceeds(s: State, turns: nat -> Turn)
    requires Scheduled(turns) && s.task.Idle?
    ensures !DriveFails(s, turns, 0)
  {
  }

  /** Discovery of the OpenStack parameters: its result is stored if no error is reported. */
  lemma ListingSucceedsIff(s: State, turns: nat -> Turn)
    requires Scheduled(turns) && s.task.ListingRouters?
    ensures !DriveFails(s, turns, 0) <==> EndsWell(s, turns)
    ensures !DriveFails(s, turns, 0) ==>
              var writer := OpenstackDiscovery(s.task.account, turns(0).routers, turns(0).group);
              var get := Exec(Step(s, turns(0)), turns(1).others);
              var end := Drive(s, turns, 0);
              |end.hist| > 0 && get.hist != [] && !end.deleted && Modify(writer, get.Current()) == Some(end.Current())
  {
    hide Drive, DriveFails, Exec, Rewrites, Modify;
    var listed := Step(s, turns(0));
    RequestsKeepWorld(s, turns(0).others);
    Progress(s, listed, turns, 0);
    if turns(0).outcome == Done {
      assert listed.task == Rereading(OpenstackDiscovery(s.task.account, turns(0).routers, turns(0).group));
      RewriteSucceedsIff(listed, turns, 1);
    }
  }

  /** The handler on a cached version: its error, and what is done without one. */
  lemma HandlerSucceedsIff(s: State, cached: nat, podsReady: nat, turns: nat -> Turn)
    requires Scheduled(turns) && s.task == Idle
    ensures var t := HandleKey(s, cached, podsReady);
            && (!DriveFails(t, turns, 0) <==> EndsWell(t, turns))
            && (!DriveFails(t, turns, 0) && t.task.LookingUpSecret? ==>
                  var end := Drive(t, turns, 0);
                  end.deleted && !end.release && !end.secret && (s.secret ==> !end.user))
  {
    hide Drive, DriveFails, EndsWell, Informed, RequiresOpenstackInfo, RequiresKubernikusInfo;
    var t := HandleKey(s, cached, podsReady);
    SucceedsIff(t, turns);
    if t.task.LookingUpSecret? { TeardownSucceedsIff(t, turns, 0); }
  }
}
