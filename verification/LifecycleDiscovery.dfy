/** Discovery adds at most two versions to the record, however stale the caches are. */
module LifecycleDiscovery {
  import opened Common
  import opened Klusters
  import opened Lifecycle
  import opened LifecycleProofs
  import opened LifecycleTheorems

  predicate Discovers(w: Writer) {
    w.OpenstackDiscovery? || w.KubernikusDiscovery?
  }

  /** The event stores a new version that a discovery computed. */
  predicate AddsDiscovery(s: State, e: Event) {
    var stored := StoredWrite(s, e);
    stored.Some? && Discovers(stored.value.writer) && |Next(s, e).hist| > |s.hist|
  }

  /** How many versions of a run came from discovery. */
  function Discoveries(s: State, es: seq<Event>): nat {
    if es == [] then 0
    else
      var before := es[..|es| - 1];
      Discoveries(s, before) + if AddsDiscovery(Exec(s, before), es[|es| - 1]) then 1 else 0
  }

  /** OpenStack lists routers, networks and subnets with ids, and groups with ids. */
  ghost predicate NamedReplies(es: seq<Event>) {
    forall e <- es :: e.RoutersListed? ==> NamedRouters(e.routers) && (e.group.Some? ==> e.group.value != "")
  }

  /** Some OpenStack parameter is empty, among them the security group that discovery fills in passing. */
  predicate OpenstackGap(k: Kluster) {
    RequiresOpenstackInfo(k) || k.spec.openstack.securityGroupID == ""
  }

  /** How many of the two kinds of discovery could still change the record. */
  function Gaps(k: Kluster): nat {
    (if OpenstackGap(k) then 1 else 0) + (if RequiresKubernikusInfo(k) then 1 else 0)
  }

  /** A discovery in progress is for the kluster's account and found named resources. */
  ghost predicate Proper(w: Writer, account: string) {
    w.OpenstackDiscovery? ==>
      w.account == account && NamedRouters(w.routers) && (w.group.Some? ==> w.group.value != "")
  }

  ghost predicate TaskProper(t: Task, account: string) {
    && (t.ListingRouters? ==> t.account == account)
    && (t.Rereading? ==> Proper(t.writer, account))
    && (t.Saving? ==> Proper(t.write.writer, account))
  }

  /** A discovery either finds nothing new or closes the gap of its kind; no other writer opens one. */
  lemma GapsClose(w: Writer, k: Kluster, account: string)
    requires Modify(w, k).Some? && Proper(w, account) && account != ""
    ensures Gaps(Modify(w, k).value) <= Gaps(k)
    ensures Discovers(w) && Modify(w, k).value != k ==> Gaps(Modify(w, k).value) + 1 <= Gaps(k)
  {
    match w
    case OpenstackDiscovery(a, routers, group) => OpenstackCloses(k, a, routers, group);
    case _ =>
  }

  lemma OpenstackCloses(k: Kluster, account: string, routers: seq<Router>, group: Option<string>)
    requires account != "" && NamedRouters(routers) && (group.Some? ==> group.value != "")
    requires WithOpenstackInfo(k, account, routers, group).Ok?
    ensures var v := WithOpenstackInfo(k, account, routers, group).value;
            && !OpenstackGap(v) && v.status == k.status
            && (!OpenstackGap(k) ==> v == k)
  {
    DiscoveryInforms(k, account, routers, group);
    DiscoverySound(k, account, routers, group);
    hide NamedRouters, Pick;
    var before, after := k.spec.openstack, WithOpenstackInfo(k, account, routers, group).value.spec.openstack;
    if !OpenstackGap(k) {
      SamePresets(before, after, account, routers, group);
    }
  }

  /** Where everything was preset, discovery confirms it. */
  lemma SamePresets(before: OpenstackSpec, after: OpenstackSpec, account: string, routers: seq<Router>,
      group: Option<string>)
    requires Discovered(before, after, account, routers, group)
    requires before.projectID != "" && before.routerID != "" && before.networkID != ""
    requires before.lbSubnetID != "" && before.securityGroupID != ""
    ensures after == before
  {
    var r :| 0 <= r < |routers| && routers[r].id == after.routerID &&
      (forall j :: 0 <= j < r ==> routers[j].id != after.routerID) && DiscoveredOn(before, after, routers[r]);
  }

  // ----- Events -----------------------------------------------------------------------------------

  /** Whatever happens, discoveries in progress are for the right account. */
  lemma TaskNext(s: State, e: Event, account: string)
    requires Inv(s) && TaskProper(s.task, account) && s.Current().account == account
    requires NamedReplies([e])
    ensures TaskProper(Next(s, e).task, account)
  {
    hide Modify, MayBegin, RequiresOpenstackInfo, RequiresKubernikusInfo, NamedRouters, RequestsOK, Later;
    match e
    case Handle(cached, podsReady) =>
      if cached < |s.hist| {
        assert Later(s.hist[cached], s.Current());
        SameAccount(s.hist[cached], s.Current());
      }
    case Proceed(outcome) =>
      ProceedProper(s, outcome, account);
      hide Advance;
    case RoutersListed(routers, group) =>
      assert e in [e];
    case _ =>
  }

  lemma ProceedProper(s: State, outcome: Outcome, account: string)
    requires TaskProper(s.task, account)
    ensures TaskProper(Advance(s, outcome).task, account)
  {
    hide Modify, NamedRouters;
    if Creation(s.task) { CreationFrame(s, outcome); }
    TeardownFrame(s, outcome);
    hide AdvanceCreation, AdvanceTeardown, Store;
  }

  lemma SameAccount(a: Kluster, b: Kluster)
    requires Later(a, b)
    ensures a.account == b.account
  {
  }

  /** The writer of a stored version is an API request, or what the worker was saving. */
  lemma StoredProper(s: State, e: Event, account: string)
    requires Inv(s) && TaskProper(s.task, account) && StoredWrite(s, e).Some?
    ensures Proper(StoredWrite(s, e).value.writer, account)
  {
    hide HistInv, Modify, NamedRouters;
  }

  lemma GapsNext(s: State, e: Event, account: string)
    requires Inv(s) && TaskProper(s.task, account) && s.Current().account == account && account != ""
    ensures |Next(s, e).hist| > 0 && Next(s, e).Current().account == account
    ensures Gaps(Next(s, e).Current()) + (if AddsDiscovery(s, e) then 1 else 0) <= Gaps(s.Current())
  {
    assert |s.hist| > 0;
    hide Next, Modify, StoredWrite, Inv, TaskProper, Proper, Discovers, Gaps, WriteOK, OnlyOwnFields, GroundWriter,
      RequestWriter;
    StoredWriteFrame(s, e);
    if StoredWrite(s, e).Some? {
      var w := StoredWrite(s, e).value;
      StoredProper(s, e, account);
      GapsClose(w.writer, s.Current(), account);
      ModifyKeeps(w.writer, s.Current());
    }
  }

  // ----- Runs ---------------------------------------------------------------------------------------

  /** The versions that discovery added, and the gaps still open, never exceed the gaps at creation. */
  lemma DiscoveriesBounded(k: Kluster, domain: string, es: seq<Event>)
    requires k.status.phase == Pending && k.account != "" && NamedReplies(es)
    ensures |Run(k, domain, es).hist| > 0
    ensures Discoveries(Created(k, domain), es) + Gaps(Run(k, domain, es).Current()) <= Gaps(k) <= 2
  {
    DiscoveryAlways(k, domain, es);
  }

  lemma {:induction false} DiscoveryAlways(k: Kluster, domain: string, es: seq<Event>)
    requires k.status.phase == Pending && k.account != "" && NamedReplies(es)
    ensures |Run(k, domain, es).hist| > 0 && TaskProper(Run(k, domain, es).task, k.account)
    ensures Run(k, domain, es).Current().account == k.account
    ensures Discoveries(Created(k, domain), es) + Gaps(Run(k, domain, es).Current()) <= Gaps(k)
    decreases |es|
  {
    hide Next, Gaps, AddsDiscovery, Proper, NamedRouters, Inv;
    if es != [] {
      var before, e := es[..|es| - 1], es[|es| - 1];
      assert e in es && NamedReplies([e]) && NamedReplies(before);
      DiscoveryAlways(k, domain, before);
      InvAlways(k, domain, before);
      TaskNext(Run(k, domain, before), e, k.account);
      GapsNext(Run(k, domain, before), e, k.account);
    }
  }
}
