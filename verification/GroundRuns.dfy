/** The ground controller's handler as a function: the worker's steps until it is idle again, and their errors. */
module GroundRuns {
  import opened Common
  import opened Klusters
  import opened Lifecycle
  import opened LifecycleProofs

  /** What the environment does around one outside call of the handler. */
  datatype Turn = Turn(
    others: seq<Event>,          // requests of the API and of the launch controller that run first
    outcome: Outcome,            // how the call ends
    routers: seq<Router>,        // what it returns, where the call lists routers
    group: Option<string>)       // the default security group, None if the lookup fails

  ghost predicate Requests(es: seq<Event>) {
    forall e <- es :: e.Begin? || e.Finish?
  }

  ghost predicate Scheduled(turns: nat -> Turn) {
    forall n: nat :: Requests(turns(n).others)
  }

  // ----- The handler as a function: the worker's steps until it is idle again -------------------

  function Reply(s: State, turn: Turn): Event {
    if s.task.ListingRouters? && turn.outcome == Done then RoutersListed(turn.routers, turn.group)
    else Proceed(turn.outcome)
  }

  function Step(s: State, turn: Turn): State {
    var before := Exec(s, turn.others);
    Next(before, Reply(before, turn))
  }

  function Rank(t: Task): nat {
    match t
    case Idle => 0
    case Saving(_) => 1
    case Rereading(_) => 2
    case ListingRouters(_) | Seeding | InstallingRelease => 3
    case CreatingUser => 4
    case DeletingRecord => 1
    case DeletingRelease => 2
    case DeletingUser => 3
    case LookingUpSecret => 4
  }

  lemma RequestsKeepTask(s: State, es: seq<Event>)
    requires Requests(es)
    ensures Exec(s, es).task == s.task
    decreases |es|
  {
    if es != [] {
      RequestsKeepTask(s, es[..|es| - 1]);
      RequestKeepsTask(Exec(s, es[..|es| - 1]), es[|es| - 1]);
    }
    hide Next;
  }

  lemma RequestKeepsTask(s: State, e: Event)
    requires e.Begin? || e.Finish?
    ensures Next(s, e).task == s.task
  {
    hide Modify, MayBegin;
  }

  lemma StepRanks(s: State, turn: Turn)
    requires Requests(turn.others) && s.task != Idle
    ensures Rank(Step(s, turn).task) < Rank(s.task)
  {
    RequestsKeepTask(s, turn.others);
    var before := Exec(s, turn.others);
    if !(s.task.ListingRouters? && turn.outcome == Done) { AdvanceRanks(before, turn.outcome); }
    hide Exec, Advance;
  }

  lemma AdvanceRanks(s: State, outcome: Outcome)
    requires s.task != Idle && !(s.task.ListingRouters? && outcome == Done)
    ensures Rank(Advance(s, outcome).task) < Rank(s.task)
  {
    hide Modify, Accepts, AdvanceCreation, AdvanceTeardown;
    if Creation(s.task) {
      CreationRanks(s, outcome);
    } else if Teardown(s.task) {
      TeardownRanks(s, outcome);
    }
  }

  lemma CreationRanks(s: State, outcome: Outcome)
    requires Creation(s.task)
    ensures Rank(AdvanceCreation(s, outcome).task) < Rank(s.task)
  {
  }

  lemma TeardownRanks(s: State, outcome: Outcome)
    requires Teardown(s.task)
    ensures Rank(AdvanceTeardown(s, outcome).task) < Rank(s.task)
  {
  }

  ghost function Drive(s: State, turns: nat -> Turn, n: nat): State
    requires Scheduled(turns)
    decreases Rank(s.task)
  {
    if s.task == Idle then s
    else
      StepRanks(s, turns(n));
      Drive(Step(s, turns(n)), turns, n + 1)
  }

  /** The call fails in a way the handler reports; a failed phase update is only logged. */
  predicate Fails(s: State, turn: Turn) {
    match s.task
    case Idle => false
    case Rereading(writer) =>
      !writer.PhaseChange? &&
      (turn.outcome != Done || s.deleted || s.hist == [] ||
        (writer.OpenstackDiscovery? && Modify(writer, s.Current()).None?))
    case Saving(write) => !write.writer.PhaseChange? && (turn.outcome != Done || !Accepts(s, write))
    case DeletingRecord => turn.outcome != Done || s.deleted
    case _ => turn.outcome != Done
  }

  ghost predicate DriveFails(s: State, turns: nat -> Turn, n: nat)
    requires Scheduled(turns)
    decreases Rank(s.task)
  {
    if s.task == Idle then false
    else
      StepRanks(s, turns(n));
      Fails(Exec(s, turns(n).others), turns(n)) || DriveFails(Step(s, turns(n)), turns, n + 1)
  }

  /** One step of the handler, and whether it failed. */
  lemma Progress(s: State, t: State, turns: nat -> Turn, n: nat)
    requires Scheduled(turns) && s.task != Idle && t == Step(s, turns(n))
    ensures Drive(s, turns, n) == Drive(t, turns, n + 1)
    ensures DriveFails(s, turns, n) <==> Fails(Exec(s, turns(n).others), turns(n)) || DriveFails(t, turns, n + 1)
    ensures t.task == Idle ==> Drive(t, turns, n + 1) == t && !DriveFails(t, turns, n + 1)
  {
    hide Exec, Next, Fails;
  }

  /** The handler is a run of the protocol, whatever the environment does around its calls. */
  lemma DriveIsRun(s: State, turns: nat -> Turn, n: nat) returns (es: seq<Event>)
    requires Scheduled(turns)
    ensures Drive(s, turns, n) == Exec(s, es) && Drive(s, turns, n).task == Idle
    decreases Rank(s.task)
  {
    if s.task == Idle {
      es := [];
    } else {
      StepRanks(s, turns(n));
      var rest := DriveIsRun(Step(s, turns(n)), turns, n + 1);
      var turn := turns(n);
      var reply := Reply(Exec(s, turn.others), turn);
      hide Next;
      ExecSnoc(s, turn.others, reply);
      ExecAppend(s, turn.others + [reply], rest);
      es := turn.others + [reply] + rest;
    }
  }
}
