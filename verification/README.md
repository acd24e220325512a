# Kubernikus, modelled and proved in Dafny

Kubernikus runs Kubernetes clusters ("klusters") for OpenStack projects. This project models the
parts of it where several actors touch the same state, where calls fail half way, or where text
and addresses are taken apart by hand, and proves what holds of them for all inputs and all runs.

Check everything with `dafny verify dfyconfig.toml`.

## What is modelled

**One record, three writers** (`Klusters`, `Lifecycle*`, `Ground*`). A stored `Kluster` is
edited by the API, by the ground controller and by the launch controller, each with Get, modify,
Update. `Lifecycle` is a state machine over every stored version, the writes in flight, what the
ground controller is in the middle of, and the outside world (service user, helm release, secret).
An event may be any request's Get or Update, or any reply, failing or not, to the controller's
next call. A run is any sequence of events, so interleavings, lagging caches and partial failures
are all included. `GroundControl` holds the handler itself as imperative code over a mutable
world; `Handler` and `DriveIsRun` together say that whatever it does is such a run, so that the
theorems about runs are theorems about it. `GroundSuccess` and `GroundPhases` say, call by call,
when it reports success and what is true then.

**Node pools** (`PoolNames`, `NodePools`, `NodeBuilding`, `Convergence`, `LaunchController`, `ReconcileConvergence`). The VMs of an
OpenStack project that are built in stages, boot, vanish and break on their own, and the reconciliation that lists a pool's
VMs by the beginning of their generated names and creates and deletes VMs in loops which stop at any
error. Safety bounds hold for every cloud. Convergence is proved for a fair one with a lexicographic
measure, for all pools of all klusters of a project and whatever order Nova lists them in.

**Record and VMs together** (`LeftoverNodes`). The joint protocol of the record's writers and the launch
controller's rounds: what a stored pool status says about the VMs, what the guard of the terminate
request relies on, and when a record is deleted while VMs are left.

**Work queues** (`WorkQueue`). Retry counting of the launch and the wormhole work loops.

**Wormhole** (`SaveRestore`, `TunnelRoutes`, `TunnelRules`, `WormholeController`). Tunnel routes
and the firewall chain, the table text that is written, and the hand-written scanner that reads
such text back.

**Versions** (`Versions`, `Precedence`, `Identifiers`, `VersionText`, `VersionSpace`). Parser, printer and comparator, against
section 11 of Semantic Versioning 2.0.0.

**Addresses** (`Addresses`, `KlusterFactory`, `RouteCollector`). Prefix arithmetic on address
bytes, the defaults of a new kluster, the address of its API service, and the removal of orphaned
routes.

## What the code does not do, and when it does

Where a promised property is false of the code, the code is modelled as it is, a concrete run or
input shows the failure, and the exact condition under which the property holds is proved.

* **Phases can go back.** `updatePhase` reads the record again but stores its target phase whatever
  it finds. From any new kluster with preset OpenStack parameters there is a run in which
  Terminating becomes Running (`TerminatingTurnsRunning`). Phases move legally in a run if and only if
  no phase is ever stored over another than the handler saw (`PhasesLegalIffNeverStale`).
* **A service user can outlive its kluster**, in two ways. A failed installation leaves a user but no secret, so
  that teardown does not look for the user, even with a cache that is always current
  (`FailedInstallLeavesUser`). And with a cache that goes back, showing Terminating first and Pending
  after that, the user is created anew after the teardown removed it (`StaleCreationOrphansUser`). With a cache
  that only moves forward, however far it lags, no creation follows a teardown (`ForwardNeverOrphans`), so that
  only a secret that never came leaves a user (`ForwardUserSurvives`). For all caches: a deleted record
  leaves its user behind exactly if the deleting teardown found no secret while the user was there
  (`UserSurvivesIff`), and the user follows the secret in every state of a run exactly if no creation takes
  effect while the secret is gone again (`UserFollowsIff`), which never happens in step with the store
  (`InStepNeverOrphans`). That the release is gone first needs no hypothesis (`DeletedAfterRelease`).
* **VMs can outlive their kluster.** The terminate request refuses klusters with running nodes, but a round that
  creates VMs writes no status, and teardown does not look at VMs. The record of a new kluster that is never
  updated can be deleted while VMs that it created are left if and only if some pool has a positive size
  and none before it a negative one; then even without failures and with caches that are always current
  (`DeletionCanLeaveNodesIff`). The guard passes a version exactly if each pool was never reported or last
  reported at size zero; a VM of such a reported pool that runs was created after the report
  (`GuardPassesIff`).
* **Errors of `updatePhase` are only logged.** The handler reports success while the kluster it created stays
  Pending (`SilentFailure`). After a reported success the phase was stored exactly if the Get worked, found
  a record in another phase, and the Update got through before anybody else's (`CreationSucceedsIff`,
  `StartSucceedsIff`).
* **Negative pool sizes index out of bounds.** Nothing validates the items of a pool list; the index into
  the listed VMs is in bounds for every listing if and only if the size is not negative
  (`IndexInBoundsIff`).
* **Pools whose names overlap need not settle.** A pool takes every VM for its own whose name begins with
  `kluster-pool-`. Under a fair cloud all pools of a project settle, in every run, if and only if no size is
  negative, pools of one prefix have one size, and each VM that a pool creates is listed for that pool
  and for no other one (`AllPoolsSettleIff`). A pool `a` of size 0 takes the VM of `a-b` away each time
  (`PoolNamesCollide`); so does pool `a` of kluster `k` with the VMs of kluster `k-a`, although the names
  all are as the API wants them (`KlusterNamesCollide`); and where kluster and pool name together have more than 56
  characters, generated names are cut off and the pool never finds its VMs (`LongNamesUnsettle`). Pool names
  without hyphens that are short enough do settle in a kluster by itself (`ProperPoolsSettle`). A
  quiet reconciliation means that every pool has its VMs only where names do not overlap
  (`QuietReconcile`, `QuietWithTooFew`). Terminating klusters are emptied in any case (`AllPoolsEmpty`).
* **The scanner loses the end of an unterminated buffer.** `UnterminatedIff` says exactly which last lines survive.
  Chain lines without a space panic, exactly as its comment warns (`PanicsIff`).
* **The wormhole never forgets.** `delNode` leaves the store entries, and generic routes have no owner: the periodic
  recheck of a node that is gone removes the route of a live node that reuses its pod CIDR
  (`ReusedCIDRLosesRoute`). A generic route is there exactly if it was installed and no key recorded with its
  network was found gone since (`GenericInstalledIff`). Client routes are exact: a node last reconciled with
  success has both (`PresentNodeReachable`), one last found gone has none (`AbsentNodeUnreachable`).
* **The version comparator is no total order.** A shorter left pre-release compares equal to its continuations
  (`ShorterComparesEqual`), and the versions `1.0.0-2`, `1.0.0-10`, `1.0.0-1a` form a cycle
  (`VersionsCycle`). The documentation of `AtLeast` holds on generic versions exactly if the version does not
  end, equal so far, where the minimum goes on with something other than zeros; then it counts as large enough,
  as 1.4 does for 1.4.11 (`GenericDocumentedIff`). Agreement with
  Semantic Versioning is characterised for all semantic versions by `CompareIsPrecedenceExactly`: besides shorter
  left sides the exceptions are numbers of more than 64 bits (`WideNumbersDisagree`) and numbers next to
  identifiers that come first as text, above all those that begin with a hyphen (`FirstCharacterDecides`).
* **A newline after a version is not ignored.** The parser's documentation says that trailing white space is, but
  `"1.2.3\n"` does not parse (`NewlineFails`). White space after a version is ignored if and only if it
  contains no newline (`TrailingSpaceIff`).
* **Creating a kluster ignores the factory's error** and dereferences its nil result (`CreateCluster`).
  `AcceptedIff` says which specs the factory accepts: in particular no service CIDR in 0.0.0.0/8.

## Assumptions

* Update is conflict-checked; storing an identical record makes no new version. A failed call may
  have taken effect. Only one worker handles a key at a time. A name has one incarnation.
* The kluster secret belongs to the helm release and names the kluster's own service user.
* Caches hold any version that was stored before. The terminate request's check for running nodes
  may have seen any earlier version as well. How many pods are ready is an input.
* Helm, Keystone, Nova, Neutron and Kubernetes calls end in outcomes chosen by the environment. A
  created VM is starting; a deleted one disappears or is stopping first. VM ids are numbers, each
  handed out once.
* Nova lists the VMs whose names begin with the filter, or those that contain it; where it matters both are
  covered. It lists them in any order. Of the five random characters of a name none is a hyphen.
* Fairness, for convergence only: between reconciliations VMs only get to other stages, boot or vanish, and while
  some VMs that a pool lists are starting or stopping at least one of them boots or vanishes; calls of the rounds succeed.
* For `LeftoverNodes` a project holds the VMs of one kluster.
* The tunnel server keeps client routes as a set of (network, identifier) and generic routes as a
  set of networks; adding may fail, deleting does not. Declaring a chain in an iptables-restore without flush empties
  that chain, and a restore is all or nothing.
* `net.ParseCIDR` is a parameter that returns masked prefixes of 4 or 16 bytes; `IP.String` is a
  parameter that writes different addresses of one length differently.

## Model

| member | source | states |
|---|---|---|
| Klusters.ModifyKeeps | pkg/api/handlers/util.go:34-48 | Every writer's copy keeps identity, immutable spec, pool names of the status and discovered values, and differs from what it read only in the writer's own fields |
| Klusters.PoolInfoReplacesFirst | pkg/controller/launch/pool_manager.go:90-102 | SetStatus replaces exactly the first entry with the pool's name, unless it is up to date |
| Klusters.PoolInfoSilentIff | pkg/controller/launch/pool_manager.go:90-102 | It writes nothing if and only if there is no such entry or the first one is up to date |
| Klusters.DiscoveryIsExact | pkg/controller/ground.go:505-614 | Discovery yields a result if and only if the router is the first listed one with its id, the network is on that router, the subnet in that network, presets survive and every free choice was the only candidate |
| Klusters.DiscoveryInforms | pkg/controller/ground.go:448-453 | After a successful discovery with named resources nothing about OpenStack is missing |
| Klusters.UrlsDiscovered | pkg/controller/ground.go:470-485 | The URLs carry the kluster's name and the name with -wormhole, presets survive, the two differ, and two klusters share one only if one name is the other with that suffix |
| Klusters.ImagesDefaulted | pkg/api/handlers/update_cluster.go:24-30 | An update stores every pool as it came, with the default image where it had none |
| LifecycleProofs.InvNext | pkg/controller/ground.go:144-270 | Every event, with any staleness and any failure, keeps the protocol invariant: history only discovers, Creating and Running are informed, pending writes are some writer's modification of the version they are based on |
| LifecycleProofs.InvAlways | pkg/controller/ground.go:144-270 | The invariant holds after every run |
| LifecycleTheorems.PastPendingIsInformed | pkg/controller/ground.go:165-244 | In every run each stored version that is Creating or Running has project, router, network, subnet ids and both URLs |
| LifecycleProgress.SeedsIff | pkg/controller/ground.go:206-238 | A worker that sees a Creating version seeds if and only if exactly four pods are ready, and else does nothing |
| LifecycleProgress.PhasesMean | pkg/controller/ground.go:190-238 | In every run a stored Creating version means that the release brought the secret, and a stored Running one also that the worker saw a Creating version with four ready pods |
| LifecycleTheorems.VersionsOnlyDiscover | pkg/controller/ground.go:466-490 | In every run any later version keeps each discovered value, the immutable spec and the names in the status of any earlier one |
| LifecycleTheorems.StoredWriteFrame | pkg/api/handlers/util.go:34-48 | Each accepted Update is its writer's modification of the very version it replaces and changes only that writer's fields |
| LifecycleTheorems.NoLostUpdates | pkg/api/handlers/update_cluster.go:23-33 | In every run Spec.NodePools is that of the last accepted update request, images defaulted |
| LifecycleTheorems.PhaseStep | pkg/controller/ground.go:311-334 | An event makes the phase history illegal exactly when it stores a phase over another than its handler had seen |
| LifecycleTheorems.PhasesLegalIffNeverStale | pkg/controller/ground.go:311-334 | A run moves phases only Pending, Creating, Running and to Terminating, never back, if and only if no phase write in it was stale |
| LifecycleTeardown.TerminatedStays | pkg/controller/ground.go:311-334 | Without a stale phase write a terminating kluster stays terminating |
| LifecycleTeardown.DeletedAfterRelease | pkg/controller/ground.go:405-446 | In every run, caches however stale, the record is deleted only with release and secret gone, however many attempts failed before |
| LifecycleTeardown.DeletedWhileTerminating | pkg/controller/ground.go:245-266 | With the cached phase in step only a terminating kluster's record is deleted |
| LifecycleUser.UserFollowsIff | pkg/controller/ground.go:369-446 | For caches however stale: in every state of a run the user is gone once the secret is gone again, if and only if no user creation takes effect while it is gone |
| LifecycleUser.DeletedAfterUser | pkg/controller/ground.go:405-446 | Without such a creation the record is deleted only with the release gone and, if the secret ever existed, the service user gone |
| LifecycleUser.InStepNeverOrphans | pkg/controller/ground.go:165-206 | With the cached phase in step no such creation happens |
| LifecycleUser.UserSurvivesIff | pkg/controller/ground.go:405-423 | For caches however stale: a deleted record leaves its user behind if and only if the deleting teardown found no secret while the user existed; then the secret never existed or some creation came after it was gone |
| LifecycleUser.ForwardNeverOrphans | pkg/controller/ground.go:165-206 | In every run with a cache that never shows an older version than before, however far it lags, no such creation happens |
| LifecycleUser.ForwardUserSurvives | pkg/controller/ground.go:401-433 | With such a cache a deleted record leaves its user behind only if the secret never existed |
| LifecycleUser.FailedInstallLeavesUser | pkg/controller/ground.go:401-433 | For every preset new kluster: with a cache that is always current, a failed installation and a terminate request delete the record and leave the user |
| LifecycleStaleRuns.ReachCreating | pkg/controller/ground.go:166-206 | From every preset new kluster a run reaches Creating, with exactly this history and outside world |
| LifecycleStaleRuns.ReachTerminating | pkg/api/handlers/terminate_cluster.go:23-49 | From there a terminate request reaches Terminating |
| LifecycleStaleRuns.TerminatingTurnsRunning | pkg/controller/ground.go:224-238 | For every such kluster a lagging cache permits a run that stores Running after Terminating |
| LifecycleStaleRuns.StaleCreationOrphansUser | pkg/controller/ground.go:190-206 | For every such kluster a cache that shows the Terminating version and after that the Pending one again permits a run that deletes the record while the service user exists |
| LifecycleDiscovery.DiscoveriesBounded | pkg/controller/ground.go:166-182 | In every run, caches however stale, the versions that discovery added plus the kinds of information still incomplete never exceed those incomplete at creation, at most two |
| LifecycleDiscovery.OpenstackCloses | pkg/controller/ground.go:505-614 | A discovery leaves no OpenStack parameter empty, and sends the record unchanged where none was |
| GroundControl.Choose | pkg/controller/ground.go:519-543 | The search finds the first candidate with the preset id, or the only candidate when nothing is preset |
| GroundControl.DiscoverInto | pkg/controller/ground.go:505-614 | The step by step discovery computes the exact discovery result or its error |
| GroundControl.SetDefaultImages | pkg/api/handlers/update_cluster.go:24-30 | The in-place loop gives every pool without image the default one and changes nothing else |
| GroundControl.ReplacePoolInfo | pkg/controller/launch/pool_manager.go:90-102 | The search loop computes the copy SetStatus sends, or that it sends none |
| GroundControl.Edit | pkg/api/handlers/util.go:34-48 | The callback of each request computes that request's modification |
| GroundControl.World.Update | pkg/api/handlers/util.go:42-45 | A write is stored only over the version it was based on, and success is reported only then |
| GroundControl.World.BeginEdit | pkg/api/handlers/util.go:34-40 | Get and callback put the modified copy in flight with its base version |
| GroundControl.World.FinishEdit | pkg/api/handlers/util.go:42-47 | The Update of a request in flight; it reports success if and only if the call ends well and nobody stored in between |
| GroundControl.World.SomeNodesRunning | pkg/api/handlers/terminate_cluster.go:33-39 | The guard loop finds a pool with running nodes exactly if there is one |
| GroundControl.Controller.ModifyCopy | pkg/controller/ground.go:459-491 | The field by field changes of the ground controller's writers compute their modification |
| GroundControl.Controller.CreateKluster | pkg/controller/ground.go:336-403 | Service user, then release; on an error the handler is done and reports it |
| GroundControl.Controller.TerminateKluster | pkg/controller/ground.go:405-446 | User if the secret exists, then release, then record; it reports no error if and only if the record was there and all three or four calls ended well, and then record, release and secret are gone, and the user if there was a secret |
| GroundControl.Controller.TerminateRelease | pkg/controller/ground.go:425-446 | The part after the user; a missing release is no error. No error if and only if both calls ended well and the record was there; then record, release and secret are gone |
| GroundControl.Controller.DiscoverOpenstackInfo | pkg/controller/ground.go:493-615 | Listing, Get, choice and Update are the protocol's steps; no error if and only if all of them end well, the choice is possible and nobody stores a version in between |
| GroundControl.Controller.StartKluster | pkg/controller/ground.go:224-244 | Seeding, then the phase change, whose failure is not reported |
| GroundControl.Controller.Handler | pkg/controller/ground.go:144-270 | With any environment around its calls the handler leaves the world where the protocol's steps lead; it reports no error exactly when the calls that its phase needs end well, and a teardown without error leaves no record, release or secret |
| GroundSuccess.TeardownSucceedsIff | pkg/controller/ground.go:405-446 | From any point of a teardown, no error if and only if the record was there and all remaining calls end well; then the record is gone and so is what those calls delete |
| GroundSuccess.RewriteSucceedsIff | pkg/controller/ground.go:459-491 | A discovery reports no error if and only if Get and Update get through, the change is possible and nobody stores in between; then the current version is the change of the one read |
| GroundSuccess.ListingSucceedsIff | pkg/controller/ground.go:493-615 | The same with the listing of routers before it |
| GroundSuccess.SucceedsIff | pkg/controller/ground.go:144-270 | For every phase, when the handler reports no error, in terms of the outcomes of its calls |
| GroundRuns.DriveIsRun | pkg/controller/ground.go:144-270 | Where the handler's steps lead is where some run of the protocol leads, and the worker is idle again |
| GroundPhases.PhaseStoredIff | pkg/controller/ground.go:311-334 | No failure of a phase change is reported; the phase is stored if and only if the Get works and finds a record in another phase, and the Update gets through before anybody else's |
| GroundPhases.CreationSucceedsIff | pkg/controller/ground.go:190-206 | Creating reports success if and only if user and release were created; exactly then the phase change follows, stored under the condition above |
| GroundPhases.StartSucceedsIff | pkg/controller/ground.go:224-244 | The same for seeding and Running |
| GroundPhases.SilentFailure | pkg/controller/ground.go:190-206 | For every preset new kluster there is a handler call with a current cache that creates user and release and reports success, and the kluster stays Pending |
| PoolNames.GeneratedMatches | pkg/client/openstack/client.go:535-570 | Whether a pool lists a VM that a pool creates does not depend on the random characters of its name |
| PoolNames.SeesItselfIff | vendor/k8s.io/client-go/pkg/api/v1/generate.go:47-64 | A pool lists the VMs it creates if and only if its prefix has at most 58 characters |
| PoolNames.SeesIff | pkg/client/openstack/client.go:535-536 | Where names are not cut off and match at the beginning, a pool lists the VMs of another if and only if the other kluster-pool name is the same or continues it by a hyphen |
| NodePools.CountBound | pkg/client/openstack/client.go:97-158 | A VM is in at most one of starting, stopping and running, so that the counts and the rest add up to the number of VMs |
| NodeBuilding.StateTable | pkg/client/openstack/client.go:97-158 | Which task, VM and power states count as starting, stopping and running |
| NodeBuilding.BuildingCountsAsStarting | pkg/client/openstack/client.go:97-112 | From its creation on a VM is there once and counts as exactly one starting VM through all building stages, whatever else happens, until it boots, breaks or is deleted |
| NodeBuilding.NoSecondVM | pkg/controller/launch/controller.go:74-81 | Once a round created what was missing, and unless VMs break, exactly size many run or start in whatever stage, so that the next round creates and deletes none |
| NodePools.DriftTally | pkg/client/openstack/client.go:97-158 | Whatever VMs do on their own, moving through building stages included, of those with any names in view running or starting ones do not become more, and fewer by at most one for each that breaks |
| NodePools.NeverOvershoots | pkg/controller/launch/controller.go:74-81 | After each single create, wherever the loop stops, listed VMs that run or start do not exceed the size |
| NodePools.NeverUndershoots | pkg/controller/launch/controller.go:82-89 | After each single scale-down delete, wherever the loop stops and whatever state the first VMs are in, listed VMs that run or start plus those that broke by themselves during its calls are not below the size |
| NodePools.IndexInBoundsIff | pkg/controller/launch/controller.go:82-88 | Some listing drives the index out of bounds if and only if the size is negative |
| NodePools.QuietRound | pkg/controller/launch/controller.go:58-98 | A round without error and requeue changed nothing; terminating, the pool lists no VM, else exactly size many run and none is on its way |
| Convergence.RoundFine | pkg/controller/launch/controller.go:58-98 | Without failing calls a round ends without error: each listed VM is still there when its turn comes |
| Convergence.RoundNears | pkg/controller/launch/controller.go:58-98 | A round brings the VMs that the pool lists no further away, and if they are not as wanted, closer or with something on its way |
| Convergence.RoundThenFair | pkg/controller/launch/controller.go:58-98 | A round followed by a fair cloud strictly decreases the lexicographic distance of every unsettled pool and leaves a settled one alone |
| Convergence.RoundElsewhere | pkg/controller/launch/controller.go:66-89 | A round of another pool leaves the VMs in view as they are, if it creates none of them and none that both list change |
| Convergence.RoundQuiet | pkg/controller/launch/controller.go:90-97 | A pool that lists what it wants is left alone, without error or requeue |
| LaunchController.Compute.GetNodes | pkg/client/openstack/client.go:521-551 | Exactly the VMs whose names match the prefix, as Nova orders them, or an error |
| LaunchController.PoolManager.CountRunning | pkg/controller/launch/pool_manager.go:159-167 | The loop counts the running VMs |
| LaunchController.PoolManager.CountStarting | pkg/controller/launch/pool_manager.go:139-147 | The loop counts the starting VMs |
| LaunchController.PoolManager.CountStopping | pkg/controller/launch/pool_manager.go:149-157 | The loop counts the stopping VMs |
| LaunchController.PoolManager.IDs | pkg/controller/launch/pool_manager.go:131-137 | The loop collects the ids in listing order |
| LaunchController.PoolManager.GetStatus | pkg/controller/launch/pool_manager.go:59-74 | Ids, counts, needed and unneeded of one listing |
| LaunchController.PoolManager.CreateNodes | pkg/controller/launch/controller.go:74-81 | The creating loop leaves the whole project with the specified number of creates, and stops at the first error |
| LaunchController.PoolManager.DeleteNodes | pkg/controller/launch/controller.go:82-89 | The deleting loop goes through the listed ids from the first, whosever VMs they are, and stops at the first error; the whole project is as specified |
| LaunchController.PoolManager.ReconcilePool | pkg/controller/launch/controller.go:58-98 | Cloud, requeue flag, ending and status report of one round |
| LaunchController.Reconcile | pkg/controller/launch/controller.go:39-56 | All pools in order up to the first error, requeue requested if any pool asks, nothing done in other phases |
| LaunchController.QuietReconcile | pkg/controller/launch/controller.go:39-56 | Without error and requeue every pool lists its size of running VMs when Running, and none when Terminating; if names do not overlap and the project holds only VMs of these pools, those are the VMs it created |
| LaunchController.QuietWithTooFew | pkg/controller/launch/controller.go:39-56 | Where names overlap they need not be: pools a of size 2 and a-b of size 1 are quiet with one VM each |
| ReconcileConvergence.AllPoolsSettleIff | pkg/controller/launch/controller.go:39-56 | Under a fair cloud all pools of the running klusters of a project reach their sizes for good in every run, in whatever order Nova lists, if and only if no size is negative, pools of one prefix have one size, and each VM that a pool creates is listed for it and for no other pool |
| ReconcileConvergence.AllPoolsEmpty | pkg/controller/launch/controller.go:66-73 | Under a fair cloud all pools of terminating klusters are emptied for good in every run, whatever their names and sizes |
| ReconcileConvergence.SettledStays | pkg/controller/launch/controller.go:90-97 | Once every pool is where it should be, reconciliations are quiet and change nothing |
| ReconcileConvergence.FairSweepsExist | pkg/controller/launch/controller.go:39-56 | From every project and for every list of pools there is such a fair run |
| ReconcileConvergence.OverlapUnsettles | pkg/client/openstack/client.go:535-536 | If a pool lists the VMs that another one with a positive size creates, some fair run never settles |
| ReconcileConvergence.PoolNamesCollide | pkg/client/openstack/client.go:535-536 | Pools a of size 0 and a-b of size 1 of one kluster do not settle in every run |
| ReconcileConvergence.KlusterNamesCollide | pkg/client/openstack/client.go:535-536 | Nor do pool a of kluster k and a pool of kluster k-a in one project |
| ReconcileConvergence.LongNamesUnsettle | vendor/k8s.io/client-go/pkg/api/v1/generate.go:59-64 | Nor does a pool of positive size whose prefix has more than 58 characters |
| ReconcileConvergence.ProperPoolsSettle | pkg/client/openstack/client.go:535-536 | Pools of one kluster with short enough names without hyphens, no negative size and one size per name settle in every run |
| LeftoverNodes.RecordIsRun | pkg/controller/launch/pool_manager.go:76-106 | In the joint protocol the record goes through a run of the lifecycle protocol |
| LeftoverNodes.ReportedIsWanted | pkg/controller/launch/controller.go:74-97 | A round reports only a pool that runs and starts as many VMs as its size; healthy and schedulable are those that run; with size zero none of those listed |
| LeftoverNodes.GuardPassesIff | pkg/api/handlers/terminate_cluster.go:33-39 | In every joint run the guard passes a stored version if and only if each of its pool entries is the initial one or was reported at size zero; then every VM that such a reported pool lists and that runs or starts was created after the report |
| LeftoverNodes.DeletionCanLeaveNodesIff | pkg/controller/launch/controller.go:74-81 | The record of a new preset kluster without updates can be deleted while VMs that it created are left, if and only if some pool has a positive size and none before it a negative one; then also without any failure and with current caches |
| LeftoverNodes.LeavesSmoothly | pkg/controller/ground.go:405-446 | Such a run: a round creates VMs and writes no status, the guard passes, and teardown comes first |
| WorkQueue.CountIsErrorsModuloSix | pkg/controller/base/controller.go:148-196 | In every run a key's failure count is its errors since the last real success modulo six, and at most five; requeued rounds do not reset it |
| WorkQueue.DroppedOnEverySixth | pkg/controller/base/controller.go:186-195 | A key is dropped exactly on every sixth error since its last success |
| WorkQueue.AtMostFiveRetries | pkg/controller/base/controller.go:171-195 | Between two Forgets of a key it is requeued rate-limited at most five times |
| WorkQueue.Queue.ProcessNextWorkItem | pkg/controller/base/controller.go:148-196 | One work item extends the run by what happened, and the queue is told what the specification says |
| WorkQueue.Queue.HandleErr | pkg/wormhole/server/controller.go:127-152 | The wormhole's loop does the same, without requeue requests |
| SaveRestore.LineAtTrims | pkg/util/iptables/save_restore.go:64-110 | On a terminated line: the text trimmed on both sides and the index past the newline; on any buffer it strictly advances and stays inside |
| SaveRestore.ReadLine | pkg/util/iptables/save_restore.go:64-110 | The byte scanner with its two trim indices computes exactly this, for every buffer and index |
| SaveRestore.UnterminatedIff | pkg/util/iptables/save_restore.go:83-109 | A last line without newline is read as trimmed if and only if it is blank, or has at least two characters after its leading spaces and neither of the last two is a space |
| SaveRestore.GetChainLines | pkg/util/iptables/save_restore.go:29-62 | Both loops end; the result is that of the chain lines after the table's start line, or a panic |
| SaveRestore.PanicsIff | pkg/util/iptables/save_restore.go:54-58 | Parsing panics if and only if a chain line of the table has no space |
| SaveRestore.ChainsMeaning | pkg/util/iptables/save_restore.go:43-61 | Otherwise every chain line is found under its name, and everything found is such a line |
| SaveRestore.TableFound | pkg/util/iptables/save_restore.go:29-62 | Wherever the table stands in the text: only the lines between its first start line and the next one that commits or starts a table count; a chain is found if and only if one of them declares it, with the last such line; a panic exactly for one without space |
| SaveRestore.NoTableFound | pkg/util/iptables/save_restore.go:36-42 | Without such a start line nothing is found |
| SaveRestore.LinesOfBuffer | pkg/wormhole/server/controller.go:326-328 | Reading a written buffer gives back its lines, each trimmed |
| TunnelRoutes.AlwaysRecorded | pkg/wormhole/server/controller.go:167-206 | In every run, with calls failing half way and nodes changing, each installed client route and generic route is recorded in the store, client routes under their node |
| TunnelRoutes.AddNodeSucceedsIff | pkg/wormhole/server/controller.go:167-198 | addNode succeeds if and only if the node has an address, both CIDRs parse and all four calls work; then client route, generic route and store entry of the pod CIDR and of the host address are there, and nothing else changed |
| TunnelRoutes.PresentNodeReachable | pkg/wormhole/server/controller.go:154-198 | After any run whose last event for a key was a successful addNode both client routes of that node are installed |
| TunnelRoutes.AbsentNodeUnreachable | pkg/wormhole/server/controller.go:200-206 | After any run whose last event for a key found its node gone no client route of it is installed |
| TunnelRoutes.GenericInstalledIff | pkg/wormhole/server/controller.go:167-206 | After any run a generic route is installed if and only if some addNode installed it and no key recorded with its network was found gone since |
| TunnelRoutes.DelNodeRemovesClient | pkg/wormhole/server/controller.go:200-206 | After delNode exactly the client routes with that node's identifier are gone, even if the node had several pod CIDRs over time |
| TunnelRoutes.DelNodeRemovesGeneric | pkg/wormhole/server/controller.go:200-206 | A generic route survives delNode if and only if it is not one recorded for that key |
| TunnelRoutes.ReusedCIDRLosesRoute | pkg/wormhole/server/controller.go:96-98 | A recheck of a node that is gone removes the generic route of a live node that was given the same pod CIDR |
| TunnelRules.RuleLineJoins | pkg/wormhole/server/controller.go:305-312 | The rule text is the words of writeLine joined by spaces |
| TunnelRules.KeyRulesText | pkg/wormhole/server/controller.go:305-323 | The words of a node's two rules: both its addresses are redirected to port 9191 in the tunnel chain |
| TunnelRules.ServiceRuleText | pkg/wormhole/server/controller.go:259-266 | And of the rule for the service CIDR |
| TunnelRules.TableReadsBack | pkg/wormhole/server/controller.go:243-270 | The table that is written is read back line by line, for all names and addresses without newline |
| TunnelRules.ChainLineIsFixedPoint | pkg/wormhole/server/controller.go:243-250 | Parsing the written table finds exactly the tunnel chain with the chain line written, so that line is a fixed point of save, parse and print |
| TunnelRules.FoundLine | pkg/wormhole/server/controller.go:246-250 | Whatever iptables-save printed, a tunnel chain line found in it is again one that can be written and read back |
| TunnelRules.RestoreReplacesChain | pkg/wormhole/server/controller.go:276-282 | Restoring the written table makes the tunnel chain exactly its rules, whatever it held, and leaves all other chains alone |
| TunnelRules.RedirectsPerKey | pkg/wormhole/server/controller.go:252-257 | The redirects are a host redirect and a pod redirect per live key, in key order |
| TunnelRules.OrderIrrelevant | pkg/wormhole/server/controller.go:252-257 | The order in which the store's keys are visited changes only the order of the redirects |
| TunnelRules.ExactlyOncePerKey | pkg/wormhole/server/controller.go:287-324 | Every key whose node is cached has exactly one host and one pod redirect, and there are no others, however often the store records it |
| WormholeController.Controller.AddNode | pkg/wormhole/server/controller.go:167-198 | Store and routes after up to four calls any of which may fail, then the firewall; success exactly if the node can be installed and the firewall redone, and then both pairs of routes are there |
| WormholeController.Controller.DelNode | pkg/wormhole/server/controller.go:200-207 | Store and routes after undoing all recorded routes of the key, then the firewall, with exactly when it succeeds |
| WormholeController.Controller.Reconcile | pkg/wormhole/server/controller.go:154-165 | Either of them, keeping every installed route recorded; on success a node that is there has both pairs of routes, the tunnel chain is rebuilt and OUTPUT jumps to it |
| WormholeController.Controller.WriteTunnelRedirect | pkg/wormhole/server/controller.go:287-324 | The key's rule lines are appended to the buffer, none for an uncached node, an error for one without address |
| WormholeController.Controller.RedoIPTables | pkg/wormhole/server/controller.go:209-285 | It succeeds if and only if the chain, jump and restore calls do, the saved text parses or could not be had, and every live key has a host address; it panics exactly on a saved text that does not parse. On success the tunnel chain is exactly the redirects of the live keys and then the service rule, OUTPUT has its old rules and a jump to the chain, appended only where missing, and other chains are unchanged; otherwise the chain's rules are unchanged |
| WormholeController.OneJump | pkg/wormhole/server/controller.go:221-229 | However often the firewall is redone, OUTPUT that had no jump gets exactly one, once both commands worked |
| Versions.CompareInternal | pkg/util/version/version.go:183-238 | The loops with early returns compute the comparison |
| Versions.ComponentsAreLex | pkg/util/version/version.go:184-195 | For all inputs the component loop is the lexicographic comparison with the other side truncated or zero-padded to the left length |
| Versions.ComponentsDocumentedIff | pkg/util/version/version.go:240-253 | It is the documented comparison with absent components as 0 if and only if the left side is not a proper prefix continued by some non-zero component |
| Versions.GenericIsLex | pkg/util/version/version.go:183-199 | Unless both versions are semantic ones the comparison is that of the components with the other side fitted to the left length |
| Versions.GenericDocumentedIff | pkg/util/version/version.go:240-253 | On such versions AtLeast and LessThan follow the documented rule if and only if the version is not cut short, equal so far, where the other goes on with a non-zero component; if it is, it counts as large enough |
| Versions.GenericOrders | pkg/util/version/version.go:183-199 | Generic versions of one number of components are totally ordered |
| Versions.OlderIptables | pkg/util/iptables/iptables.go:480-492 | 1.4.7 is less than 1.4.11 |
| Precedence.CompareIsPrecedenceIff | pkg/util/version/version.go:183-238 | For semantic versions with ordinary identifiers the comparator is Semantic Versioning precedence if and only if not both components agree and the left pre-release is a proper non-empty beginning of the right one |
| Precedence.CompareIsPrecedence | pkg/util/version/version.go:183-238 | In particular whenever the left side has at least as many pre-release fields, or none |
| Precedence.PrecedenceLaws | pkg/util/version/version.go:181-183 | The precedence of section 11 is antisymmetric and transitive on all versions of three components |
| Precedence.CompareOrders | pkg/util/version/version.go:181-238 | So the comparator is antisymmetric and transitive on versions of equal field count |
| Precedence.AtLeastIsPrecedence | pkg/util/version/version.go:240-253 | AtLeast decides precedence under the same condition |
| Precedence.ShorterComparesEqual | pkg/util/version/version.go:212-237 | A list of fields compares equal to every continuation of it, though it precedes it, and the continuation compares greater |
| Precedence.MixedIdentifiersCycle | pkg/util/version/version.go:217-235 | The identifiers 2, 10 and 1a form a cycle |
| Identifiers.IdentifiersAgreeIff | pkg/util/version/version.go:216-234 | For all identifiers of section 9 the comparison is their precedence if and only if both are numbers that fit, or are as long, or sort as text by length; or the only number comes first as text; or there is no number |
| Identifiers.FirstCharacterDecides | pkg/util/version/version.go:230-234 | Next to a number an identifier beginning with a hyphen is always misplaced, one beginning with a letter never |
| Identifiers.WideNumbersDisagree | pkg/util/version/version.go:216-234 | A number of more than 64 bits sorts below 2 |
| Identifiers.VersionsCycle | pkg/util/version/version.go:181-238 | 1.0.0-2, 1.0.0-10 and 1.0.0-1a parse, and compare in a cycle |
| Identifiers.CompareIsPrecedenceExactly | pkg/util/version/version.go:183-238 | For all semantic versions the comparator is section 11 precedence if and only if components differ, or one is no pre-release, or the pre-releases agree at their first difference and the left one does not end there |
| VersionText.ParseVersion | pkg/util/version/version.go:42-86 | The parser with its loops and error returns accepts and computes exactly what the grammar says |
| VersionText.String | pkg/util/version/version.go:160-179 | The buffer writing loop prints the version |
| VersionText.PrintParses | pkg/util/version/version.go:157-179 | Every canonical version is read back exactly from its print, pre-release and build metadata included |
| VersionText.ParsePrintParse | pkg/util/version/version.go:88-95 | Every version that either parse returns is reproduced by printing and parsing in the same mode |
| VersionText.CanonicalIff | pkg/util/version/version.go:42-86 | The versions some text parses to are exactly the canonical ones |
| VersionSpace.TrailingSpaceIff | pkg/util/version/version.go:88-95 | For every version text, mode and white space after it, parsing gives the same version if and only if the white space contains no newline |
| VersionSpace.NewlineFails | pkg/util/version/version.go:106-111 | 1.2.3 parses, and followed by a newline it does not |
| VersionSpace.LeadingIgnoredIff | pkg/util/version/version.go:35-40 | White space before a version changes nothing, newlines included; a v does not either directly before the first digit, and is refused anywhere else |
| VersionSpace.GenericIgnoresRest | pkg/util/version/version.go:88-95 | What follows a generic version on its line changes nothing unless it continues the numbers |
| Addresses.MaskRounds | pkg/controller/routegc/controller.go:127-130 | Masking an address, and setting all bits outside the mask, give the first and the last number of its prefix block, for every prefix and address length |
| Addresses.ContainsIff | pkg/controller/routegc/controller.go:131 | A network contains exactly the addresses of its length between its first address and its number of addresses further on |
| Addresses.BytesReadBack | pkg/util/ip/ip.go:29-33 | The bytes of a number, leading zeros dropped, stand for that number |
| Addresses.BytesLength | pkg/util/ip/ip.go:29-33 | They are at most k many exactly when the number is below 256 to the k |
| Addresses.IndexedIPExact | pkg/util/ip/ip.go:12-33 | For every prefix and index, GetIndexedIP succeeds exactly when the sum lies in the network and needs all bytes of an address, and then returns that address |
| Addresses.SecondExistsIff | pkg/apis/kubernikus/factory.go:64-67 | There is an address number 2 exactly in networks of more than two addresses that do not begin with a zero byte |
| Addresses.SecondImpliesFirst | pkg/apis/kubernikus/v1/kluster.go:31-42 | If address number 2 exists, so does number 1, inside the network and one below it |
| KlusterFactory.KlusterFor | pkg/apis/kubernikus/factory.go:33-96 | Each error in its order of precedence; else a Pending record with every default filled where the spec is silent and one empty status entry per pool, in order |
| KlusterFactory.InitialPoolInfos | pkg/apis/kubernikus/factory.go:85-93 | The loop makes one entry with zero counters per pool, in order |
| KlusterFactory.CreateCluster | pkg/api/handlers/create_cluster.go:25-65 | Rejected exactly for duplicate pools, nil dereference exactly when the factory refuses, else the record with qualified name, account and default images |
| KlusterFactory.QualifiedApartIff | pkg/api/handlers/util.go:26-32 | Two names of one account lead to the same record if and only if they are the same or one is the qualified name of the other |
| KlusterFactory.AcceptedIff | pkg/apis/kubernikus/factory.go:33-67 | Which specs are accepted, by name and service CIDR |
| KlusterFactory.ServiceIPExists | pkg/apis/kubernikus/v1/kluster.go:31-42 | An accepted service CIDR has an API service address, inside it and just below the default DNS address |
| KlusterFactory.EveryVersionServes | pkg/apis/kubernikus/v1/kluster.go:31-42 | In every version any run stores of a new kluster ApiServiceIP succeeds inside the service CIDR, differs from a defaulted DNS address, and the status has the pools of the creation |
| RouteCollector.RouteGarbageCollector.IsResponsibleForRoute | pkg/controller/routegc/controller.go:119-135 | The byte loop computes the last address; the answer is whether both ends are in the cluster CIDR, no for an unparsable one |
| RouteCollector.ResponsibleIffCovered | pkg/controller/routegc/controller.go:126-134 | For an IPv4 destination that is so if and only if every address of the route is in the cluster CIDR |
| RouteCollector.RouteGarbageCollector.ValidNexthops | pkg/controller/routegc/controller.go:64-80 | The nested loops collect exactly the addresses of all servers |
| RouteCollector.RouteGarbageCollector.Reconcile | pkg/controller/routegc/controller.go:60-116 | Nothing happens if a read fails; else an update with the surviving routes is sent exactly if one is dropped |
| RouteCollector.KeptIsSubsequence | pkg/controller/routegc/controller.go:93-104 | The new list is the subsequence, in order, of exactly the routes that are not orphaned |
| RouteCollector.KeepsAllIff | pkg/controller/routegc/controller.go:94-107 | It equals the old list exactly when no route is orphaned |
| RouteCollector.OrphanedIff | pkg/controller/routegc/controller.go:95-102 | A route to an IPv4 prefix is orphaned exactly when it parses, all of it lies in the cluster CIDR and no server has its next hop as an address |
| RouteCollector.SecondPassKeepsAll | pkg/controller/routegc/controller.go:60-116 | A second pass drops nothing, even if servers were added meanwhile |

## Left out

- ReconcileConvergence.AllPoolsSettleIff: assumes calls that succeed and the fairness stated above, a sweep over the pools of running klusters at a time, and VMs that do nothing during a sweep; VMs in an error state are left as they are.
- LeftoverNodes.DeletionCanLeaveNodesIff: klusters whose OpenStack parameters are preset, without update requests, which could bring in pools of any size.
- NodePools.NeverOvershoots: bounds the VMs that the pool lists; where names overlap others may be among them.
- RouteCollector.ResponsibleIffCovered: IPv4 destinations only; the end points of an IPv6 prefix may be IPv4-mapped addresses, for which the code answers no.
- Precedence.CompareIsPrecedenceIff: identifiers are numeric within 64 bits or begin with a letter; `Identifiers.CompareIsPrecedenceExactly` has no such restriction.
- Identifiers.CompareIsPrecedenceExactly: identifiers obey section 9; the parser also lets numbers of more than 64 bits with superfluous zeros through.
- LifecycleDiscovery.DiscoveriesBounded: assumes an account name, and ids for routers, networks, subnets and the security group, as OpenStack returns them; an update that stores an identical record is no version.
- WormholeController.Controller.RedoIPTables: names and addresses without newline, as Kubernetes enforces; what iptables-save prints is arbitrary.
- The ground controller's own work loop, which retries without limit, and delays and deduplication in the work queues.
- Waiting for caches after an update, recheck tickers, logging, metrics and events.
- Parallel workers of the wormhole controller: its store is an unsynchronised map; here one key is reconciled at a time.
- Pagination of the VM listing: each page replaces the previous one, a single page is assumed.
- Which of a node's addresses becomes its host address; it is part of the cached node.
- The iptables wrapper itself (processes, file locks, the fallback for old versions) and the guttle tunnel library.
- Regular expressions: the version grammar is written as a recogniser.
- Parsing and printing of addresses as text; JSON, YAML, templates, certificates, tokens.
- Bytes of text are characters; map iteration is an arbitrary order.
- The command line tools, the REST plumbing and generated code.
