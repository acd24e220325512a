/** The phase changes at the end of the handler: their failures are not reported, and when they happen. */
module GroundPhases {
  import opened Common
  import opened Klusters
  import opened Lifecycle
  import opened LifecycleProofs
  import opened LifecycleTheorems
  import opened LifecycleStaleRuns
  import opened GroundRuns

  /** updatePhase is at its Get; its Update, should it come to one, adds a version. */
  ghost predicate StoresPhase(s: State, turns: nat -> Turn, n: nat) {
    var sent := Step(s, turns(n));
    sent.task.Saving? && |Step(sent, turns(n + 1)).hist| > |Exec(sent, turns(n + 1).others).hist|
  }

  /** The Get fails, or finds no record or the phase in place already; or the Update is lost; or somebody was faster. */
  ghost predicate Misses(s: State, phase: Phase, turns: nat -> Turn, n: nat) {
    var get := Exec(s, turns(n).others);
    var update := Exec(Step(s, turns(n)), turns(n + 1).others);
    || turns(n).outcome != Done || get.deleted || get.hist == [] || get.Current().status.phase == phase
    || (turns(n + 1).outcome != Done && !turns(n + 1).outcome.applied)
    || update.deleted || |update.hist| != |get.hist|
  }

  /** The phase is stored exactly if none of this happens; no error is reported in either case. */
  lemma PhaseStoredIff(s: State, turns: nat -> Turn, n: nat)
    requires Scheduled(turns) && s.task.Rereading? && s.task.writer.PhaseChange?
    ensures !DriveFails(s, turns, n)
    ensures StoresPhase(s, turns, n) <==> !Misses(s, s.task.writer.to, turns, n)
    ensures StoresPhase(s, turns, n) ==>
              var end := Drive(s, turns, n);
              && |end.hist| > 0 && end.Current() ==
                WithPhase(Exec(s, turns(n).others).Current(), s.task.writer.to, s.task.writer.message)
              && end.Current().status.phase == s.task.writer.to
              && end.Current().status.message == s.task.writer.message
    ensures !StoresPhase(s, turns, n) ==>
              var end := Drive(s, turns, n);
              end.hist == Exec(s, turns(n).others).hist || end.hist == Exec(Step(s, turns(n)), turns(n + 1).others).hist
  {
    hide Drive, DriveFails, Exec;
    var w := s.task.writer;
    RequestsKeepTask(s, turns(n).others);
    var get := Exec(s, turns(n).others);
    var sent := Step(s, turns(n));
    Progress(s, sent, turns, n);
    assert sent == if turns(n).outcome == Done then Lifecycle.Reread(get, w) else get.(task := Idle);
    if sent.task.Saving? {
      RequestsKeepTask(sent, turns(n + 1).others);
      var update := Exec(sent, turns(n + 1).others);
      var end := Step(sent, turns(n + 1));
      Progress(sent, end, turns, n + 1);
      assert end == Send(update.(task := Idle), sent.task.write, turns(n + 1).outcome);
      hide Modify, Send;
      HistoryGrows(sent, turns(n + 1).others);
      SendAdds(update.(task := Idle), sent.task.write, turns(n + 1).outcome);
    }
  }

  lemma SendAdds(s: State, w: Write, outcome: Outcome)
    requires |s.hist| > 0
    ensures Send(s, w, outcome).hist ==
            if (outcome == Done || outcome.applied) && Accepts(s, w) && w.value != s.Current() then s.hist + [w.value]
            else s.hist
  {
  }

  /** Requests only add versions. */
  lemma {:induction false} HistoryGrows(s: State, es: seq<Event>)
    requires |s.hist| > 0
    ensures s.hist <= Exec(s, es).hist
    decreases |es|
  {
    if es != [] {
      var n := |es| - 1;
      HistoryGrows(s, es[..n]);
      StoredWriteAppends(Exec(s, es[..n]), es[n]);
      hide Next, StoredWrite;
    }
  }

  // ----- Creating and starting a kluster -------------------------------------------------------------

  /** When creating a kluster succeeds, and whether the phase is stored then. */
  lemma CreationSucceedsIff(s: State, turns: nat -> Turn)
    requires Scheduled(turns) && s.task == CreatingUser
    ensures !DriveFails(s, turns, 0) <==> turns(0).outcome == Done && turns(1).outcome == Done
    ensures !DriveFails(s, turns, 0) ==>
              var installed := Step(Step(s, turns(0)), turns(1));
              && installed.task == Rereading(BECOME_CREATING) && Drive(s, turns, 0) == Drive(installed, turns, 2)
              && (StoresPhase(installed, turns, 2) <==> !Misses(installed, Creating, turns, 2))
  {
    var created := Step(s, turns(0));
    var installed := Step(created, turns(1));
    hide Drive, DriveFails, Exec, Misses, StoresPhase;
    RequestsKeepTask(s, turns(0).others);
    Progress(s, created, turns, 0);
    if turns(0).outcome == Done {
      RequestsKeepTask(created, turns(1).others);
      Progress(created, installed, turns, 1);
      if turns(1).outcome == Done { PhaseStoredIff(installed, turns, 2); }
    }
  }

  /** The same for starting one whose pods are ready. */
  lemma StartSucceedsIff(s: State, turns: nat -> Turn)
    requires Scheduled(turns) && s.task == Seeding
    ensures !DriveFails(s, turns, 0) <==> turns(0).outcome == Done
    ensures !DriveFails(s, turns, 0) ==>
              var seeded := Step(s, turns(0));
              && seeded.task == Rereading(BECOME_RUNNING) && Drive(s, turns, 0) == Drive(seeded, turns, 1)
              && (StoresPhase(seeded, turns, 1) <==> !Misses(seeded, Running, turns, 1))
  {
    var seeded := Step(s, turns(0));
    hide Drive, DriveFails, Exec, Misses, StoresPhase;
    RequestsKeepTask(s, turns(0).others);
    Progress(s, seeded, turns, 0);
    if turns(0).outcome == Done { PhaseStoredIff(seeded, turns, 1); }
  }

  /** A handler that reports success, although the kluster it created stays Pending. */
  lemma SilentFailure(k: Kluster, domain: string) returns (es: seq<Event>, turns: nat -> Turn)
    requires Preset(k)
    ensures Scheduled(turns)
    ensures var s := HandleKey(Run(k, domain, es), 1, 0);
            var end := Drive(s, turns, 0);
            && |Run(k, domain, es).hist| == 2 && s.task == CreatingUser && !DriveFails(s, turns, 0)
            && |end.hist| == 2 && end.Current().status.phase == Pending
            && end.user && end.release && end.secret
  {
    var s0, k1 := Created(k, domain), Located(k, domain);
    LocatedInformed(k, domain);
    es := [] + [Handle(0, 0), Proceed(Done), Proceed(Done)];
    ExecChain3(s0, [], Handle(0, 0), Proceed(Done), Proceed(Done));
    var s1 := s0.(hist := [k, k1]);
    assert Chain3(s0, Handle(0, 0), Proceed(Done), Proceed(Done)) == s1 by { assert [k] + [k1] == [k, k1]; }
    turns := (n: nat) => Turn([], if n == 2 then Failed(false, false) else Done, [], None);
    var s := HandleKey(s1, 1, 0);
    assert s == s1.(task := CreatingUser);
    CreationSucceedsIff(s, turns);
    var installed := Step(Step(s, turns(0)), turns(1));
    assert installed == s1.(user := true, release := true, secret := true, secretSeen := true,
                            task := Rereading(BECOME_CREATING)) by {
      hide Drive, DriveFails, Misses, StoresPhase;
    }
    var end := Step(installed, turns(2));
    assert end == installed.(task := Idle) by { hide Drive, DriveFails, Misses, StoresPhase; }
    hide Exec, Next, Step, Misses, StoresPhase, HandleKey;
    Progress(installed, end, turns, 2);
  }
}
