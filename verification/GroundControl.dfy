/**
 The ground controller's handler (pkg/controller/ground.go) and the API's editCluster as
 imperative code over the outside world, proved to be runs of the lifecycle protocol.
 */
module GroundControl {
  import opened Common
  import opened Klusters
  import opened Lifecycle
  import opened LifecycleProofs
  import opened GroundRuns
  import opened GroundPhases
  import opened GroundSuccess

  // ----- The modifications, step by step as in the source ----------------------------------------

  method Choose(ids: seq<string>, preset: string, kind: string) returns (r: Result<nat, DiscoveryError>)
    ensures r == Pick(ids, preset, kind)
  {
    if preset != "" {
      for i := 0 to |ids|
        invariant preset !in ids[..i]
      {
        if ids[i] == preset {
          assert forall j :: 0 <= j < i ==> ids[j] in ids[..i];
          return Ok(i);
        }
      }
      return Err(NotListed(kind, preset));
    }
    if |ids| == 1 {
      return Ok(0);
    }
    return Err(NoSingleChoice(kind, |ids|));
  }

  method DiscoverInto(kluster: Kluster, account: string, routers: seq<Router>, group: Option<string>)
    returns (r: Result<Kluster, DiscoveryError>)
    ensures r == WithOpenstackInfo(kluster, account, routers, group)
  {
    var os := kluster.spec.openstack;
    if os.projectID == "" {
      os := os.(projectID := account);
    }
    var router := Choose(RouterIDs(routers), os.routerID, "router");
    if router.Err? { return Err(router.error); }
    var selectedRouter := routers[router.value];
    os := os.(routerID := selectedRouter.id);

    var network := Choose(NetworkIDs(selectedRouter.networks), os.networkID, "network");
    if network.Err? { return Err(network.error); }
    var selectedNetwork := selectedRouter.networks[network.value];
    os := os.(networkID := selectedNetwork.id);

    var subnet := Choose(SubnetIDs(selectedNetwork.subnets), os.lbSubnetID, "subnet");
    if subnet.Err? { return Err(subnet.error); }
    os := os.(lbSubnetID := selectedNetwork.subnets[subnet.value].id);

    if os.securityGroupID == "" {
      if group.None? { return Err(NoSecurityGroup); }
      os := os.(securityGroupID := group.value);
    }
    return Ok(kluster.(spec := kluster.spec.(openstack := os)));
  }

  method SetDefaultImages(pools: seq<NodePool>) returns (r: seq<NodePool>)
    ensures r == WithDefaultImages(pools)
  {
    r := pools;
    for i := 0 to |pools|
      invariant |r| == |pools|
      invariant r[..i] == WithDefaultImages(pools)[..i] && r[i..] == pools[i..]
    {
      assert r[i] == pools[i];
      if pools[i].image == "" {
        r := r[i := r[i].(image := DEFAULT_IMAGE)];
      }
    }
  }

  /** SetStatus: overwrite the first entry of that name, unless it already says the same. */
  method ReplacePoolInfo(kluster: Kluster, info: NodePoolInfo) returns (r: Option<Kluster>)
    ensures r == WithPoolInfo(kluster, info)
  {
    var infos := kluster.status.nodePools;
    ghost var names := InfoNames(infos);
    for i := 0 to |infos|
      invariant forall j :: 0 <= j < i ==> names[j] != info.name
    {
      if infos[i].name == info.name {
        assert names[i] == info.name && info.name in names;
        if infos[i] == info { return None; }
        return Some(kluster.(status := kluster.status.(nodePools := infos[i := info])));
      }
    }
    return None;
  }

  /** The closure each request passes to editCluster, and SetStatus's own edit. */
  method Edit(writer: Writer, kluster: Kluster) returns (r: Option<Kluster>)
    requires RequestWriter(writer)
    ensures r == Modify(writer, kluster)
  {
    match writer
    case UpdateCluster(pools) =>
      var nodePools := SetDefaultImages(pools);
      r := Some(kluster.(spec := kluster.spec.(nodePools := nodePools)));
    case TerminateCluster =>
      var copy := kluster.(status := kluster.status.(phase := Terminating));
      copy := copy.(status := copy.status.(message := "Cluster terminating"));
      r := Some(copy);
    case PoolStatus(info) => r := ReplacePoolInfo(kluster, info);
  }

  // ----- The outside world ---------------------------------------------------------------------------

  class World {
    const domain: string
    var hist: seq<Kluster>
    var deleted: bool
    var inflight: map<nat, Write>
    var user: bool
    var release: bool
    var secret: bool
    ghost var secretSeen: bool
    ghost var task: Task

    constructor (k: Kluster, domain: string)
      ensures Abs() == Created(k, domain)
    {
      this.domain := domain;
      hist, deleted, inflight := [k], false, map[];
      user, release, secret := false, false, false;
      secretSeen, task := false, Idle;
    }

    ghost function Abs(): State
      reads this
    {
      State(domain, hist, deleted, inflight, task, user, release, secret, secretSeen)
    }

    /** The API server's Update: refused when the version read is not the current one. */
    method Update(write: Write, outcome: Outcome) returns (ok: bool)
      modifies this
      ensures Abs() == Send(old(Abs()), write, outcome) && task == old(task)
      ensures ok <==> outcome == Done && old(Accepts(Abs(), write))
    {
      var current := !deleted && write.base == |hist| - 1;
      if (outcome == Done || outcome.applied) && current && write.value != hist[|hist| - 1] {
        hist := hist + [write.value];
      }
      ok := current && outcome == Done;
    }

    /** A request's Get and edit; its Update follows in FinishEdit. */
    method BeginEdit(id: nat, writer: Writer, guard: nat)
      modifies this
      ensures Abs() == BeginRequest(old(Abs()), id, writer, guard)
    {
      if deleted || hist == [] || id in inflight || !RequestWriter(writer) { return; }
      if writer.TerminateCluster? {
        if guard >= |hist| { return; }
        var busy := SomeNodesRunning(hist[guard].status.nodePools);
        if busy { return; }
      }
      var copy := Edit(writer, hist[|hist| - 1]);
      if copy.Some? {
        inflight := inflight[id := Write(|hist| - 1, copy.value, writer)];
      }
    }

    /** The guard of the terminate handler. */
    method SomeNodesRunning(infos: seq<NodePoolInfo>) returns (busy: bool)
      ensures busy <==> exists info <- infos :: info.running > 0
    {
      for i := 0 to |infos|
        invariant forall info <- infos[..i] :: info.running <= 0
      {
        if infos[i].running > 0 { return true; }
      }
      assert infos == infos[..|infos|];
      return false;
    }

    method FinishEdit(id: nat, outcome: Outcome) returns (ok: bool)
      modifies this
      ensures Abs() == FinishRequest(old(Abs()), id, outcome)
      ensures ok <==> outcome == Done && id in old(inflight) && old(Accepts(Abs(), inflight[id]))
    {
      if id !in inflight { return false; }
      var write := inflight[id];
      inflight := inflight - {id};
      ok := Update(write, outcome);
    }

    /** Requests of the other writers run. */
    method Interfere(es: seq<Event>)
      requires Requests(es)
      modifies this
      ensures Abs() == Exec(old(Abs()), es)
      ensures task == old(task)
    {
      ghost var s := Abs();
      for i := 0 to |es|
        invariant Abs() == Exec(s, es[..i])
      {
        assert es[i] in es;
        match es[i] {
          case Begin(id, writer, guard) => BeginEdit(id, writer, guard);
          case Finish(id, outcome) => var _ := FinishEdit(id, outcome);
          case _ => assert false;
        }
        assert es[..i + 1] == es[..i] + [es[i]];
        ExecSnoc(s, es[..i], es[i]);
      }
      assert es[..|es|] == es;
      RequestsKeepTask(s, es);
    }

    method CreateUser(outcome: Outcome) returns (ok: bool)
      requires task == CreatingUser
      modifies this
      ensures Abs() == Advance(old(Abs()), outcome) && ok == (outcome == Done)
    {
      ok := outcome == Done;
      user := user || ok || outcome.applied;
      task := if ok then InstallingRelease else Idle;
    }

    /** Helm brings the release and, with it, the kluster's secret. */
    method InstallRelease(outcome: Outcome) returns (ok: bool)
      requires task == InstallingRelease
      modifies this
      ensures Abs() == Advance(old(Abs()), outcome) && ok == (outcome == Done)
    {
      ok := outcome == Done;
      release := release || ok || outcome.applied;
      if ok || (outcome.applied && outcome.secretToo) {
        secret, secretSeen := true, true;
      }
      task := if ok then Rereading(BECOME_CREATING) else Idle;
    }

    method Seed(outcome: Outcome) returns (ok: bool)
      requires task == Seeding
      modifies this
      ensures Abs() == Advance(old(Abs()), outcome) && ok == (outcome == Done)
    {
      ok := outcome == Done;
      task := if ok then Rereading(BECOME_RUNNING) else Idle;
    }

    /** Some(true) if the secret exists, Some(false) if it is not found, None on any other error. */
    method LookUpSecret(outcome: Outcome) returns (found: Option<bool>)
      requires task == LookingUpSecret
      modifies this
      ensures Abs() == Advance(old(Abs()), outcome)
      ensures found == (if outcome == Done then Some(old(secret)) else None)
    {
      found := if outcome == Done then Some(secret) else None;
      task := if outcome != Done then Idle else if secret then DeletingUser else DeletingRelease;
    }

    method DeleteUser(outcome: Outcome) returns (ok: bool)
      requires task == DeletingUser
      modifies this
      ensures Abs() == Advance(old(Abs()), outcome) && ok == (outcome == Done)
    {
      ok := outcome == Done;
      user := user && !ok && !outcome.applied;
      task := if ok then DeletingRelease else Idle;
    }

    /** Deletes the release with its secret; ok also when there was none. */
    method DeleteRelease(outcome: Outcome) returns (ok: bool)
      requires task == DeletingRelease
      modifies this
      ensures Abs() == Advance(old(Abs()), outcome) && ok == (outcome == Done)
    {
      ok := outcome == Done;
      release := release && !ok && !outcome.applied;
      secret := secret && !ok && !outcome.applied && !outcome.secretToo;
      task := if ok then DeletingRecord else Idle;
    }

    method DeleteRecord(outcome: Outcome) returns (ok: bool)
      requires task == DeletingRecord
      modifies this
      ensures Abs() == Advance(old(Abs()), outcome) && ok == (outcome == Done && !old(deleted))
    {
      ok := outcome == Done && !deleted;
      deleted := deleted || outcome == Done || outcome.applied;
      task := Idle;
    }
  }

  // ----- The handler ----------------------------------------------------------------------------------

  class Controller {
    const world: World

    constructor (world: World)
      ensures this.world == world
    {
      this.world := world;
    }

    /**
     Get, let modify change the copy, Update. The copy each ground writer sends is computed
     by the same steps as in updatePhase, discoverKubernikusInfo and discoverOpenstackInfo.
     */
    method ModifyCopy(writer: Writer, kluster: Kluster) returns (r: Option<Kluster>)
      requires GroundWriter(writer)
      ensures r == Modify(writer, kluster)
    {
      match writer
      case OpenstackDiscovery(account, routers, group) =>
        var result := DiscoverInto(kluster, account, routers, group);
        r := if result.Ok? then Some(result.value) else None;
      case KubernikusDiscovery(name, domain) =>
        var copy := kluster;
        if copy.status.apiserver == "" {
          copy := copy.(status := copy.status.(apiserver := "https://" + name + "." + domain));
        }
        if copy.status.wormhole == "" {
          copy := copy.(status := copy.status.(wormhole := "https://" + name + "-wormhole." + domain));
        }
        r := Some(copy);
      case PhaseChange(_, to, message) =>
        if kluster.status.phase == to { return None; }
        var copy := kluster.(status := kluster.status.(message := message));
        r := Some(copy.(status := copy.status.(phase := to)));
    }

    /** The Update at the end: what remains to do is done. */
    method SaveCopy(write: Write, turns: nat -> Turn, n: nat) returns (err: bool)
      requires Scheduled(turns) && world.task == Saving(write)
      modifies world
      ensures world.Abs() == Drive(old(world.Abs()), turns, n)
      ensures err && !write.writer.PhaseChange? <==> DriveFails(old(world.Abs()), turns, n)
    {
      hide Modify, Drive, DriveFails, Exec, Store;
      world.Interfere(turns(n).others);
      world.task := Idle;
      var ok := world.Update(write, turns(n).outcome);
      Progress(old(world.Abs()), world.Abs(), turns, n);
      err := !ok;
    }

    /** Get, modify the copy, Update. */
    method Rewrite(writer: Writer, turns: nat -> Turn, n: nat) returns (err: bool)
      requires Scheduled(turns) && GroundWriter(writer) && world.task == Rereading(writer)
      modifies world
      ensures world.Abs() == Drive(old(world.Abs()), turns, n)
      ensures err && !writer.PhaseChange? <==> DriveFails(old(world.Abs()), turns, n)
    {
      var copy := Reread(writer, turns, n);
      if copy.None? {
        err := !writer.PhaseChange? || turns(n).outcome != Done;
        return;
      }
      err := SaveCopy(copy.value, turns, n + 1);
    }

    /** The Get and the changes to the copy; None if the handler stops here. */
    method Reread(writer: Writer, turns: nat -> Turn, n: nat) returns (copy: Option<Write>)
      requires Scheduled(turns) && GroundWriter(writer) && world.task == Rereading(writer)
      modifies world
      ensures copy.Some? ==> world.task == Saving(copy.value) && copy.value.writer == writer
      ensures copy.Some? ==> Drive(old(world.Abs()), turns, n) == Drive(world.Abs(), turns, n + 1)
      ensures copy.Some? ==> DriveFails(old(world.Abs()), turns, n) == DriveFails(world.Abs(), turns, n + 1)
      ensures copy.None? ==> world.Abs() == Drive(old(world.Abs()), turns, n)
      ensures copy.None? ==> DriveFails(old(world.Abs()), turns, n) == !writer.PhaseChange?
    {
      NeverNone(writer);
      hide Modify, Drive, DriveFails, Exec, WithOpenstackInfo;
      ghost var s := world.Abs();
      world.Interfere(turns(n).others);
      copy := None;
      if turns(n).outcome == Done && !world.deleted && world.hist != [] {
        var base := |world.hist| - 1;
        var modified := ModifyCopy(writer, world.hist[base]);
        if modified.Some? {
          copy := Some(Write(base, modified.value, writer));
        }
      }
      world.task := if copy.Some? then Saving(copy.value) else Idle;
      Progress(s, world.Abs(), turns, n);
    }

    lemma NeverNone(writer: Writer)
      ensures writer.KubernikusDiscovery? ==> forall k :: Modify(writer, k).Some?
    {
    }

    method CreateKluster(turns: nat -> Turn, n: nat) returns (ok: bool)
      requires Scheduled(turns) && world.task == CreatingUser
      modifies world
      ensures ok ==> world.task == Rereading(BECOME_CREATING)
      ensures ok ==> Drive(old(world.Abs()), turns, n) == Drive(world.Abs(), turns, n + 2)
      ensures ok ==> DriveFails(old(world.Abs()), turns, n) == DriveFails(world.Abs(), turns, n + 2)
      ensures !ok ==> world.Abs() == Drive(old(world.Abs()), turns, n) && DriveFails(old(world.Abs()), turns, n)
    {
      hide Drive, DriveFails, Exec;
      world.Interfere(turns(n).others);
      ok := world.CreateUser(turns(n).outcome);
      Progress(old(world.Abs()), world.Abs(), turns, n);
      if !ok { return; }
      ghost var s1 := world.Abs();
      world.Interfere(turns(n + 1).others);
      ok := world.InstallRelease(turns(n + 1).outcome);
      Progress(s1, world.Abs(), turns, n + 1);
    }

    method TerminateKluster(turns: nat -> Turn, n: nat) returns (err: bool)
      requires Scheduled(turns) && world.task == LookingUpSecret
      modifies world
      ensures world.Abs() == Drive(old(world.Abs()), turns, n)
      ensures !err <==> !old(world.deleted) && AllDone(turns, n, if old(world.secret) then 4 else 3)
      ensures !err ==> world.deleted && !world.release && !world.secret && (old(world.secret) ==> !world.user)
      ensures err <==> DriveFails(old(world.Abs()), turns, n)
    {
      hide Drive, DriveFails, Exec, AllDone;
      TeardownSucceedsIff(world.Abs(), turns, n);
      ghost var s0 := world.Abs();
      world.Interfere(turns(n).others);
      var found := world.LookUpSecret(turns(n).outcome);
      Progress(s0, world.Abs(), turns, n);
      if found.None? { return true; }
      if !found.value {
        err := TerminateRelease(turns, n + 1);
        return;
      }
      ghost var s1 := world.Abs();
      world.Interfere(turns(n + 1).others);
      var ok := world.DeleteUser(turns(n + 1).outcome);
      Progress(s1, world.Abs(), turns, n + 1);
      if !ok { return true; }
      err := TerminateRelease(turns, n + 2);
    }

    /** The part of terminateKluster after the service user is dealt with. */
    method TerminateRelease(turns: nat -> Turn, n: nat) returns (err: bool)
      requires Scheduled(turns) && world.task == DeletingRelease
      modifies world
      ensures world.Abs() == Drive(old(world.Abs()), turns, n)
      ensures !err <==> !old(world.deleted) && AllDone(turns, n, 2)
      ensures !err ==> world.deleted && !world.release && !world.secret
      ensures err <==> DriveFails(old(world.Abs()), turns, n)
    {
      hide Drive, DriveFails, Exec, AllDone;
      TeardownSucceedsIff(world.Abs(), turns, n);
      ghost var s0 := world.Abs();
      world.Interfere(turns(n).others);
      var ok := world.DeleteRelease(turns(n).outcome);
      Progress(s0, world.Abs(), turns, n);
      if !ok { return true; }
      ghost var s1 := world.Abs();
      world.Interfere(turns(n + 1).others);
      ok := world.DeleteRecord(turns(n + 1).outcome);
      Progress(s1, world.Abs(), turns, n + 1);
      return !ok;
    }

    /** Pending, but something about OpenStack is unknown. */
    method DiscoverOpenstackInfo(account: string, turns: nat -> Turn) returns (err: bool)
      requires Scheduled(turns) && world.task == ListingRouters(account)
      modifies world
      ensures world.Abs() == Drive(old(world.Abs()), turns, 0)
      ensures !err <==> EndsWell(old(world.Abs()), turns)
      ensures err <==> DriveFails(old(world.Abs()), turns, 0)
    {
      hide Drive, DriveFails, Exec, EndsWell;
      ListingSucceedsIff(world.Abs(), turns);
      ghost var s0 := world.Abs();
      world.Interfere(turns(0).others);
      if turns(0).outcome != Done {
        world.task := Idle;
        Progress(s0, world.Abs(), turns, 0);
        return true;
      }
      var writer := OpenstackDiscovery(account, turns(0).routers, turns(0).group);
      world.task := Rereading(writer);
      Progress(s0, world.Abs(), turns, 0);
      err := Rewrite(writer, turns, 1);
    }

    /** Creating: all four pods are ready. */
    method StartKluster(turns: nat -> Turn) returns (err: bool)
      requires Scheduled(turns) && world.task == Seeding
      modifies world
      ensures world.Abs() == Drive(old(world.Abs()), turns, 0)
      ensures err <==> DriveFails(old(world.Abs()), turns, 0)
    {
      hide Drive, DriveFails, Exec;
      ghost var s0 := world.Abs();
      world.Interfere(turns(0).others);
      var ok := world.Seed(turns(0).outcome);
      Progress(s0, world.Abs(), turns, 0);
      if !ok { return true; }
      var _ := Rewrite(BECOME_RUNNING, turns, 1);
      err := false;
    }

    /**
     One call of the handler on some cached version, with an arbitrary environment around its
     calls. An index without a version stands for a key that is not in the cache.
     */
    method Handler(cached: nat, podsReady: nat, turns: nat -> Turn) returns (err: bool)
      requires Scheduled(turns) && world.task == Idle
      modifies world
      ensures world.Abs() == Drive(HandleKey(old(world.Abs()), cached, podsReady), turns, 0)
      ensures !err <==> EndsWell(HandleKey(old(world.Abs()), cached, podsReady), turns)
      ensures !err && HandleKey(old(world.Abs()), cached, podsReady).task.LookingUpSecret? ==>
                world.deleted && !world.release && !world.secret && (old(world.secret) ==> !world.user)
    {
      hide Drive, DriveFails, EndsWell, RequiresOpenstackInfo, RequiresKubernikusInfo;
      HandlerSucceedsIff(world.Abs(), cached, podsReady, turns);
      err := false;
      if cached >= |world.hist| {
        IdleStays(turns);
        return;
      }
      var kluster := world.hist[cached];
      match kluster.status.phase {
        case Pending =>
          if RequiresOpenstackInfo(kluster) {
            world.task := ListingRouters(kluster.account);
            err := DiscoverOpenstackInfo(kluster.account, turns);
          } else if RequiresKubernikusInfo(kluster) {
            var writer := KubernikusDiscovery(kluster.name, world.domain);
            world.task := Rereading(writer);
            err := Rewrite(writer, turns, 0);
          } else {
            world.task := CreatingUser;
            var ok := CreateKluster(turns, 0);
            if !ok { return true; }
            var _ := Rewrite(BECOME_CREATING, turns, 2);
          }
        case Creating =>
          if podsReady == 4 {
            world.task := Seeding;
            err := StartKluster(turns);
          } else {
            IdleStays(turns);
          }
        case Running => IdleStays(turns);
        case Terminating =>
          world.task := LookingUpSecret;
          err := TerminateKluster(turns, 0);
      }
    }

    lemma IdleStays(turns: nat -> Turn)
      requires Scheduled(turns) && world.task == Idle
      ensures Drive(world.Abs(), turns, 0) == world.Abs() && !DriveFails(world.Abs(), turns, 0)
    {
    }
  }
}
