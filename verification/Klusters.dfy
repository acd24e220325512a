/**
 The Kluster record (pkg/apis/kubernikus/v1/kluster.go, pkg/api/models) and every
 modification that some writer applies between its Get and its Update.
 */
module Klusters {
  import opened Common

  datatype Phase = Pending | Creating | Running | Terminating

  datatype NodePoolConfig = NodePoolConfig(repair: bool, upgrade: bool)

  datatype NodePool = NodePool(name: string, flavor: string, image: string, size: int, config: NodePoolConfig)

  datatype NodePoolInfo = NodePoolInfo(name: string, size: int, running: int, healthy: int, schedulable: int)

  datatype OpenstackSpec = OpenstackSpec(
    projectID: string, routerID: string, networkID: string, lbSubnetID: string, securityGroupID: string)

  datatype KlusterSpec = KlusterSpec(
    name: string, clusterCIDR: string, serviceCIDR: string, advertiseAddress: string,
    dnsAddress: string, dnsDomain: string, nodePools: seq<NodePool>, openstack: OpenstackSpec)

  datatype KlusterStatus = KlusterStatus(
    phase: Phase, message: string, apiserver: string, wormhole: string, version: string,
    nodePools: seq<NodePoolInfo>)

  datatype Kluster = Kluster(name: string, account: string, spec: KlusterSpec, status: KlusterStatus)

  datatype Subnet = Subnet(id: string)
  datatype Network = Network(id: string, subnets: seq<Subnet>)
  datatype Router = Router(id: string, networks: seq<Network>)

  const DEFAULT_IMAGE := "coreos-stable-amd64"

  predicate RequiresOpenstackInfo(k: Kluster) {
    k.spec.openstack.projectID == "" || k.spec.openstack.routerID == "" ||
    k.spec.openstack.networkID == "" || k.spec.openstack.lbSubnetID == ""
  }

  predicate RequiresKubernikusInfo(k: Kluster) {
    k.status.apiserver == "" || k.status.wormhole == ""
  }

  /** Everything the discovery phases have to find out is known. */
  predicate Informed(k: Kluster) {
    !RequiresOpenstackInfo(k) && !RequiresKubernikusInfo(k)
  }

  // ----- Discovery of the OpenStack parameters ------------------------------------------

  datatype DiscoveryError =
    | NotListed(kind: string, id: string)
    | NoSingleChoice(kind: string, count: nat)
    | NoSecurityGroup

  /** The candidate a preset id names, or the only candidate when nothing is preset. */
  function Pick(ids: seq<string>, preset: string, kind: string): (r: Result<nat, DiscoveryError>)
    ensures r.Ok? ==> r.value < |ids|
    ensures r.Ok? && preset != "" ==> ids[r.value] == preset
    ensures r.Ok? && preset == "" ==> |ids| == 1
    ensures r.Ok? ==> forall j :: 0 <= j < r.value ==> ids[j] != ids[r.value]
    ensures r.Ok? <==> if preset != "" then preset in ids else |ids| == 1
  {
    if preset != "" then
      if preset in ids then Ok(IndexOf(ids, preset)) else Err(NotListed(kind, preset))
    else if |ids| == 1 then Ok(0)
    else Err(NoSingleChoice(kind, |ids|))
  }

  function IndexOf(ids: seq<string>, id: string): (i: nat)
    requires id in ids
    ensures i < |ids| && ids[i] == id && forall j :: 0 <= j < i ==> ids[j] != id
  {
    if ids[0] == id then 0 else 1 + IndexOf(ids[1..], id)
  }

  function RouterIDs(routers: seq<Router>): seq<string> {
    seq(|routers|, i requires 0 <= i < |routers| => routers[i].id)
  }

  function NetworkIDs(networks: seq<Network>): seq<string> {
    seq(|networks|, i requires 0 <= i < |networks| => networks[i].id)
  }

  function SubnetIDs(subnets: seq<Subnet>): seq<string> {
    seq(|subnets|, i requires 0 <= i < |subnets| => subnets[i].id)
  }

  /** The record that discoverOpenstackInfo sends, or why it gives up. */
  function WithOpenstackInfo(k: Kluster, account: string, routers: seq<Router>, group: Option<string>):
    Result<Kluster, DiscoveryError>
  {
    var os := k.spec.openstack;
    match Pick(RouterIDs(routers), os.routerID, "router")
    case Err(e) => Err(e)
    case Ok(r) =>
      match Pick(NetworkIDs(routers[r].networks), os.networkID, "network")
      case Err(e) => Err(e)
      case Ok(n) =>
        match Pick(SubnetIDs(routers[r].networks[n].subnets), os.lbSubnetID, "subnet")
        case Err(e) => Err(e)
        case Ok(s) =>
          if os.securityGroupID == "" && group.None? then Err(NoSecurityGroup)
          else
            Ok(k.(spec := k.spec.(openstack := OpenstackSpec(
              if os.projectID == "" then account else os.projectID,
              routers[r].id,
              routers[r].networks[n].id,
              routers[r].networks[n].subnets[s].id,
              if os.securityGroupID == "" then group.value else os.securityGroupID))))
  }

  // ----- The other modifications ---------------------------------------------------------

  function WithKubernikusInfo(k: Kluster, name: string, domain: string): Kluster {
    k.(status := k.status.(
      apiserver := if k.status.apiserver == "" then "https://" + name + "." + domain else k.status.apiserver,
      wormhole := if k.status.wormhole == "" then "https://" + name + "-wormhole." + domain else k.status.wormhole))
  }

  function WithPhase(k: Kluster, phase: Phase, message: string): Kluster {
    k.(status := k.status.(phase := phase, message := message))
  }

  function WithDefaultImages(pools: seq<NodePool>): seq<NodePool> {
    seq(|pools|, i requires 0 <= i < |pools| =>
      if pools[i].image == "" then pools[i].(image := DEFAULT_IMAGE) else pools[i])
  }

  function WithNodePools(k: Kluster, pools: seq<NodePool>): Kluster {
    k.(spec := k.spec.(nodePools := WithDefaultImages(pools)))
  }

  function InfoNames(infos: seq<NodePoolInfo>): seq<string> {
    seq(|infos|, i requires 0 <= i < |infos| => infos[i].name)
  }

  /** The record SetStatus sends; None when no entry has the pool's name or nothing changes. */
  function WithPoolInfo(k: Kluster, info: NodePoolInfo): Option<Kluster> {
    var names := InfoNames(k.status.nodePools);
    if info.name !in names then None
    else
      var i := IndexOf(names, info.name);
      if k.status.nodePools[i] == info then None
      else Some(k.(status := k.status.(nodePools := k.status.nodePools[i := info])))
  }

  /** Who modifies a record after reading it, and with which data. */
  datatype Writer =
    | UpdateCluster(pools: seq<NodePool>)
    | TerminateCluster
    | PoolStatus(info: NodePoolInfo)
    | OpenstackDiscovery(account: string, routers: seq<Router>, group: Option<string>)
    | KubernikusDiscovery(name: string, domain: string)
    | PhaseChange(from: Phase, to: Phase, message: string)

  /** The modified copy a writer sends to Update; None when it stops after the Get. */
  function Modify(w: Writer, k: Kluster): Option<Kluster> {
    match w
    case UpdateCluster(pools) => Some(WithNodePools(k, pools))
    case TerminateCluster => Some(WithPhase(k, Terminating, "Cluster terminating"))
    case PoolStatus(info) => WithPoolInfo(k, info)
    case OpenstackDiscovery(account, routers, group) =>
      (match WithOpenstackInfo(k, account, routers, group)
       case Ok(v) => Some(v)
       case Err(_) => None)
    case KubernikusDiscovery(name, domain) => Some(WithKubernikusInfo(k, name, domain))
    case PhaseChange(_, to, message) => if k.status.phase == to then None else Some(WithPhase(k, to, message))
  }

  // ----- What every modification keeps ----------------------------------------------------

  /** A discovered value is written at most once. */
  predicate WrittenOnce(a: string, b: string) {
    a != "" ==> b == a
  }

  /** b may be a later version of a: identity and immutable spec kept, discoveries never overwritten. */
  predicate Later(a: Kluster, b: Kluster) {
    && b.name == a.name && b.account == a.account
    && b.spec.(nodePools := a.spec.nodePools, openstack := a.spec.openstack) == a.spec
    && b.status.version == a.status.version
    && InfoNames(b.status.nodePools) == InfoNames(a.status.nodePools)
    && WrittenOnce(a.spec.openstack.projectID, b.spec.openstack.projectID)
    && WrittenOnce(a.spec.openstack.routerID, b.spec.openstack.routerID)
    && WrittenOnce(a.spec.openstack.networkID, b.spec.openstack.networkID)
    && WrittenOnce(a.spec.openstack.lbSubnetID, b.spec.openstack.lbSubnetID)
    && WrittenOnce(a.spec.openstack.securityGroupID, b.spec.openstack.securityGroupID)
    && WrittenOnce(a.status.apiserver, b.status.apiserver)
    && WrittenOnce(a.status.wormhole, b.status.wormhole)
  }

  /** A writer's own fields; every other field of its copy is the one it read. */
  predicate OnlyOwnFields(w: Writer, k: Kluster, v: Kluster) {
    match w
    case UpdateCluster(_) => v == k.(spec := k.spec.(nodePools := v.spec.nodePools))
    case TerminateCluster => v == k.(status := k.status.(phase := v.status.phase, message := v.status.message))
    case PoolStatus(_) => v == k.(status := k.status.(nodePools := v.status.nodePools))
    case OpenstackDiscovery(_, _, _) => v == k.(spec := k.spec.(openstack := v.spec.openstack))
    case KubernikusDiscovery(_, _) =>
      v == k.(status := k.status.(apiserver := v.status.apiserver, wormhole := v.status.wormhole))
    case PhaseChange(_, _, _) => v == k.(status := k.status.(phase := v.status.phase, message := v.status.message))
  }

  lemma ModifyKeeps(w: Writer, k: Kluster)
    requires Modify(w, k).Some?
    ensures Later(k, Modify(w, k).value)
    ensures OnlyOwnFields(w, k, Modify(w, k).value)
  {
    var v := Modify(w, k).value;
    if w.PoolStatus? {
      var names := InfoNames(k.status.nodePools);
      assert InfoNames(v.status.nodePools) == names;
    }
  }

  predicate FirstNamed(infos: seq<NodePoolInfo>, i: nat, name: string) {
    i < |infos| && infos[i].name == name && forall j :: 0 <= j < i ==> infos[j].name != name
  }

  /** SetStatus replaces exactly the first entry with the pool's name, if there is one and it differs. */
  lemma PoolInfoReplacesFirst(k: Kluster, info: NodePoolInfo, i: nat)
    requires FirstNamed(k.status.nodePools, i, info.name)
    ensures WithPoolInfo(k, info) ==
            if k.status.nodePools[i] == info then None
            else Some(k.(status := k.status.(nodePools := k.status.nodePools[i := info])))
  {
    var names := InfoNames(k.status.nodePools);
    assert names[i] in names;
    var first := IndexOf(names, info.name);
    assert k.status.nodePools[first].name == names[first];
  }

  /** It sends nothing exactly if there is none, or the first one is as it should be. */
  lemma PoolInfoSilentIff(k: Kluster, info: NodePoolInfo)
    ensures var infos := k.status.nodePools;
            WithPoolInfo(k, info).None? <==>
            || (forall j :: 0 <= j < |infos| ==> infos[j].name != info.name)
            || exists i: nat :: FirstNamed(infos, i, info.name) && infos[i] == info
  {
    var infos, names := k.status.nodePools, InfoNames(k.status.nodePools);
    assert forall j :: 0 <= j < |infos| ==> infos[j].name == names[j];
    if info.name in names {
      var i := IndexOf(names, info.name);
      assert FirstNamed(infos, i, info.name);
      PoolInfoReplacesFirst(k, info, i);
      assert infos[i].name == info.name;
    }
    hide WithPoolInfo, IndexOf;
  }

  /**
   What a successful discovery found: a listed router, one of its networks and one of that
   network's subnets; presets survive, and whatever was chosen freely was the only candidate.
   */
  ghost predicate Discovered(before: OpenstackSpec, after: OpenstackSpec, account: string,
                             routers: seq<Router>, group: Option<string>)
  {
    && after.projectID == (if before.projectID != "" then before.projectID else account)
    && (before.securityGroupID != "" ==> after.securityGroupID == before.securityGroupID)
    && (before.securityGroupID == "" ==> Some(after.securityGroupID) == group)
    && (before.routerID == "" ==> |routers| == 1)
    && (before.routerID != "" ==> after.routerID == before.routerID)
    && exists r :: 0 <= r < |routers| && routers[r].id == after.routerID &&
         (forall j :: 0 <= j < r ==> routers[j].id != after.routerID) &&
         DiscoveredOn(before, after, routers[r])
  }

  ghost predicate DiscoveredOn(before: OpenstackSpec, after: OpenstackSpec, router: Router) {
    && (before.networkID == "" ==> |router.networks| == 1)
    && (before.networkID != "" ==> after.networkID == before.networkID)
    && exists n :: 0 <= n < |router.networks| && router.networks[n].id == after.networkID &&
         (forall j :: 0 <= j < n ==> router.networks[j].id != after.networkID) &&
         DiscoveredIn(before, after, router.networks[n])
  }

  ghost predicate DiscoveredIn(before: OpenstackSpec, after: OpenstackSpec, network: Network) {
    && (before.lbSubnetID == "" ==> |network.subnets| == 1)
    && (before.lbSubnetID != "" ==> after.lbSubnetID == before.lbSubnetID)
    && Subnet(after.lbSubnetID) in network.subnets
  }

  /** Discovery succeeds with a given result exactly when that result is such a choice. */
  lemma DiscoveryIsExact(k: Kluster, account: string, routers: seq<Router>, group: Option<string>, after: OpenstackSpec)
    ensures WithOpenstackInfo(k, account, routers, group) == Ok(k.(spec := k.spec.(openstack := after)))
       <==> Discovered(k.spec.openstack, after, account, routers, group)
  {
    var before := k.spec.openstack;
    var result := WithOpenstackInfo(k, account, routers, group);
    if result == Ok(k.(spec := k.spec.(openstack := after))) {
      DiscoverySound(k, account, routers, group);
      assert result.value.spec.openstack == after;
    }
    if Discovered(before, after, account, routers, group) {
      DiscoveryComplete(k, account, routers, group, after);
    }
  }

  lemma DiscoverySound(k: Kluster, account: string, routers: seq<Router>, group: Option<string>)
    requires WithOpenstackInfo(k, account, routers, group).Ok?
    ensures Discovered(k.spec.openstack, WithOpenstackInfo(k, account, routers, group).value.spec.openstack,
                       account, routers, group)
  {
    var before := k.spec.openstack;
    var after := WithOpenstackInfo(k, account, routers, group).value.spec.openstack;
    var rids := RouterIDs(routers);
    var r := Pick(rids, before.routerID, "router").value;
    var nids := NetworkIDs(routers[r].networks);
    var n := Pick(nids, before.networkID, "network").value;
    var network := routers[r].networks[n];
    var sids := SubnetIDs(network.subnets);
    var s := Pick(sids, before.lbSubnetID, "subnet").value;
    assert forall j :: 0 <= j <= r ==> routers[j].id == rids[j];
    assert forall j :: 0 <= j <= n ==> routers[r].networks[j].id == nids[j];
    assert network.subnets[s] == Subnet(after.lbSubnetID);
    assert DiscoveredIn(before, after, network);
    assert DiscoveredOn(before, after, routers[r]);
  }

  lemma FirstIsPicked(ids: seq<string>, preset: string, kind: string, i: nat)
    requires i < |ids| && forall j :: 0 <= j < i ==> ids[j] != ids[i]
    requires if preset != "" then ids[i] == preset else |ids| == 1
    ensures Pick(ids, preset, kind) == Ok(i)
  {
    assert ids[i] in ids;
  }

  lemma RouterPicked(before: OpenstackSpec, after: OpenstackSpec, account: string, routers: seq<Router>,
                     group: Option<string>)
    returns (r: nat)
    requires Discovered(before, after, account, routers, group)
    ensures Pick(RouterIDs(routers), before.routerID, "router") == Ok(r)
    ensures r < |routers| && routers[r].id == after.routerID && DiscoveredOn(before, after, routers[r])
  {
    r :| r < |routers| && routers[r].id == after.routerID &&
      (forall j :: 0 <= j < r ==> routers[j].id != after.routerID) && DiscoveredOn(before, after, routers[r]);
    hide DiscoveredOn, Pick;
    FirstIsPicked(RouterIDs(routers), before.routerID, "router", r);
  }

  lemma NetworkPicked(before: OpenstackSpec, after: OpenstackSpec, router: Router) returns (n: nat)
    requires DiscoveredOn(before, after, router)
    ensures Pick(NetworkIDs(router.networks), before.networkID, "network") == Ok(n)
    ensures n < |router.networks| && router.networks[n].id == after.networkID
    ensures DiscoveredIn(before, after, router.networks[n])
  {
    n :| n < |router.networks| && router.networks[n].id == after.networkID &&
      (forall j :: 0 <= j < n ==> router.networks[j].id != after.networkID) &&
      DiscoveredIn(before, after, router.networks[n]);
    hide DiscoveredIn, Pick;
    FirstIsPicked(NetworkIDs(router.networks), before.networkID, "network", n);
  }

  lemma SubnetPicked(before: OpenstackSpec, after: OpenstackSpec, network: Network) returns (s: nat)
    requires DiscoveredIn(before, after, network)
    ensures Pick(SubnetIDs(network.subnets), before.lbSubnetID, "subnet") == Ok(s)
    ensures s < |network.subnets| && network.subnets[s].id == after.lbSubnetID
  {
    var ids := SubnetIDs(network.subnets);
    var i :| 0 <= i < |network.subnets| && network.subnets[i] == Subnet(after.lbSubnetID);
    assert ids[i] in ids;
    assert Pick(ids, before.lbSubnetID, "subnet").Ok?;
    s := Pick(ids, before.lbSubnetID, "subnet").value;
    assert ids[s] == network.subnets[s].id;
  }

  lemma DiscoveryComplete(k: Kluster, account: string, routers: seq<Router>, group: Option<string>,
                          after: OpenstackSpec)
    requires Discovered(k.spec.openstack, after, account, routers, group)
    ensures WithOpenstackInfo(k, account, routers, group) == Ok(k.(spec := k.spec.(openstack := after)))
  {
    hide Pick, RouterIDs, NetworkIDs, SubnetIDs, DiscoveredOn, DiscoveredIn;
    var before := k.spec.openstack;
    var r := RouterPicked(before, after, account, routers, group);
    var n := NetworkPicked(before, after, routers[r]);
    var s := SubnetPicked(before, after, routers[r].networks[n]);
  }

  /** Non-empty names in, nothing left to discover afterwards. */
  lemma DiscoveryInforms(k: Kluster, account: string, routers: seq<Router>, group: Option<string>)
    requires account != "" && NamedRouters(routers)
    requires WithOpenstackInfo(k, account, routers, group).Ok?
    ensures !RequiresOpenstackInfo(WithOpenstackInfo(k, account, routers, group).value)
  {
    DiscoverySound(k, account, routers, group);
  }

  ghost predicate NamedRouters(routers: seq<Router>) {
    forall router <- routers ::
      router.id != "" && forall network <- router.networks ::
        network.id != "" && forall subnet <- network.subnets :: subnet.id != ""
  }

  // ----- Addresses of the control plane, and images ----------------------------------------------------------

  /** A URL of the kluster's own domain: the host's first label is the name and a suffix. */
  function Url(name: string, suffix: string, domain: string): string {
    "https://" + (name + suffix) + "." + domain
  }

  lemma SameHost(a: string, b: string, domain: string)
    ensures "https://" + a + "." + domain == "https://" + b + "." + domain <==> a == b
  {
    var x, y := "https://" + a + "." + domain, "https://" + b + "." + domain;
    if x == y { assert x[8..8 + |a|] == a && y[8..8 + |b|] == b; }
  }

  /**
   The apiserver is found under the kluster's name and the wormhole under the name with "-wormhole", unless a
   URL was there; the two discovered ones differ, and are another kluster's only if one of the names
   is the other one with that suffix.
   */
  lemma UrlsDiscovered(k: Kluster, name: string, other: string, domain: string)
    ensures var v := WithKubernikusInfo(k, name, domain).status;
            && (k.status.apiserver == "" ==> v.apiserver == Url(name, "", domain))
            && (k.status.wormhole == "" ==> v.wormhole == Url(name, "-wormhole", domain))
            && (k.status.apiserver != "" ==> v.apiserver == k.status.apiserver)
            && (k.status.wormhole != "" ==> v.wormhole == k.status.wormhole)
            && (k.status.apiserver == "" == k.status.wormhole ==> v.apiserver != v.wormhole)
    ensures Url(name, "", domain) == Url(other, "", domain) <==> name == other
    ensures Url(name, "-wormhole", domain) == Url(other, "-wormhole", domain) <==> name == other
    ensures Url(name, "", domain) == Url(other, "-wormhole", domain) <==> name == other + "-wormhole"
  {
    assert name + "" == name && other + "" == other;
    assert "https://" + name + "-wormhole." + domain == Url(name, "-wormhole", domain) by {
      assert "-wormhole." == "-wormhole" + ".";
    }
    SameHost(name, name + "-wormhole", domain);
    SameHost(name, other, domain);
    SameHost(name, other + "-wormhole", domain);
    SameHost(name + "-wormhole", other + "-wormhole", domain);
    if name + "-wormhole" == other + "-wormhole" {
      assert (name + "-wormhole")[..|name|] == name && (other + "-wormhole")[..|other|] == other;
    }
  }

  /** An update request stores every pool with an image, its own one where it has any, and all else as it is. */
  lemma ImagesDefaulted(k: Kluster, pools: seq<NodePool>)
    ensures Modify(UpdateCluster(pools), k).Some?
    ensures var stored := Modify(UpdateCluster(pools), k).value.spec.nodePools;
            && |stored| == |pools|
            && forall i :: 0 <= i < |pools| ==>
                 && stored[i].image == (if pools[i].image != "" then pools[i].image else "coreos-stable-amd64")
                 && stored[i] == pools[i].(image := stored[i].image)
  {
  }
}
