/**
 How a Kluster record comes into being (pkg/apis/kubernikus/factory.go and
 pkg/api/handlers/create_cluster.go), and the address of its API service
 (pkg/apis/kubernikus/v1/kluster.go).
 */
module KlusterFactory {
  import opened Common
  import opened Addresses
  import opened Klusters
  import opened Lifecycle
  import opened LifecycleProofs
  import opened LifecycleTheorems

  const DEFAULT_CLUSTER_CIDR := "198.19.0.0/16"
  const DEFAULT_SERVICE_CIDR := "198.18.128.0/17"
  const DEFAULT_ADVERTISE_ADDRESS := "1.1.1.1"
  const DEFAULT_DOMAIN := "cluster.local"

  datatype FactoryError = MissingName | InvalidCIDR | SubnetTooSmall

  /** How an address is written, net.IP.String. */
  type Printer = seq<byte> -> string

  ghost predicate PrintsApart(format: Printer) {
    forall a: seq<byte>, b: seq<byte> {:trigger format(a), format(b)} :: |a| == |b| && format(a) == format(b) ==> a == b
  }

  function OrDefault(value: string, default: string): string {
    if value == "" then default else value
  }

  function IndexedIn(cidr: string, index: int, parse: Parser): Option<seq<byte>>
    requires ParsesCIDRs(parse)
  {
    match parse(cidr)
    case None => None
    case Some(net) => GetIndexedIP(net, index)
  }

  function ApiServiceIP(k: Kluster, parse: Parser): Option<seq<byte>>
    requires ParsesCIDRs(parse)
  {
    IndexedIn(k.spec.serviceCIDR, 1, parse)
  }

  function PoolNames(pools: seq<NodePool>): seq<string> {
    seq(|pools|, i requires 0 <= i < |pools| => pools[i].name)
  }

  /** A new record for a spec: defaults where the spec is silent, no node counted yet, all of it Pending. */
  ghost predicate NewFor(k: Kluster, spec: KlusterSpec, commit: string, parse: Parser, format: Printer)
    requires ParsesCIDRs(parse)
  {
    && IndexedIn(k.spec.serviceCIDR, 2, parse).Some?
    && k.spec.name == spec.name
    && k.spec.clusterCIDR == OrDefault(spec.clusterCIDR, DEFAULT_CLUSTER_CIDR)
    && k.spec.serviceCIDR == OrDefault(spec.serviceCIDR, DEFAULT_SERVICE_CIDR)
    && k.spec.advertiseAddress == OrDefault(spec.advertiseAddress, DEFAULT_ADVERTISE_ADDRESS)
    && k.spec.dnsAddress == OrDefault(spec.dnsAddress, format(IndexedIn(k.spec.serviceCIDR, 2, parse).value))
    && k.spec.dnsDomain == OrDefault(spec.dnsDomain, DEFAULT_DOMAIN)
    && k.spec.nodePools == spec.nodePools && k.spec.openstack == spec.openstack
    && k.status.phase == Pending && k.status.version == commit
    && k.status.message == k.status.apiserver == k.status.wormhole == ""
    && |k.status.nodePools| == |spec.nodePools|
    && forall i :: 0 <= i < |spec.nodePools| ==>
         k.status.nodePools[i] == NodePoolInfo(spec.nodePools[i].name, spec.nodePools[i].size, 0, 0, 0)
  }

  /** The reasons to refuse a spec, in the order in which they are looked for. */
  function Refusal(spec: KlusterSpec, parse: Parser): Option<FactoryError>
    requires ParsesCIDRs(parse)
  {
    var cidr := OrDefault(spec.serviceCIDR, DEFAULT_SERVICE_CIDR);
    if spec.name == "" then Some(MissingName)
    else if parse(cidr).None? then Some(InvalidCIDR)
    else if IndexedIn(cidr, 2, parse).None? then Some(SubnetTooSmall)
    else None
  }

  method KlusterFor(spec: KlusterSpec, commit: string, parse: Parser, format: Printer)
    returns (r: Result<Kluster, FactoryError>)
    requires ParsesCIDRs(parse)
    ensures Refusal(spec, parse).Some? ==> r == Err(Refusal(spec, parse).value)
    ensures Refusal(spec, parse).None? ==> r.Ok? && NewFor(r.value, spec, commit, parse, format)
    ensures r.Ok? ==> r.value.name == spec.name && r.value.account == ""
  {
    if spec.name == "" {
      return Err(MissingName);
    }
    hide GetIndexedIP, ParsesCIDRs, IndexedIn, OrDefault;
    var k := FillNetworkDefaults(spec);
    var serviceCIDR := parse(k.serviceCIDR);
    if serviceCIDR.None? {
      return Err(InvalidCIDR);
    }
    var dnsip := IndexedIn(k.serviceCIDR, 2, parse);
    if dnsip.None? {
      return Err(SubnetTooSmall);
    }
    k := FillDNSDefaults(k, format(dnsip.value));
    var infos := InitialPoolInfos(k.nodePools);
    return Ok(Kluster(spec.name, "", k, KlusterStatus(Pending, "", "", "", commit, infos)));
  }

  method FillNetworkDefaults(spec: KlusterSpec) returns (k: KlusterSpec)
    ensures k == spec.(clusterCIDR := OrDefault(spec.clusterCIDR, DEFAULT_CLUSTER_CIDR),
                       serviceCIDR := OrDefault(spec.serviceCIDR, DEFAULT_SERVICE_CIDR),
                       advertiseAddress := OrDefault(spec.advertiseAddress, DEFAULT_ADVERTISE_ADDRESS))
  {
    k := spec;
    if k.clusterCIDR == "" {
      k := k.(clusterCIDR := DEFAULT_CLUSTER_CIDR);
    }
    if k.serviceCIDR == "" {
      k := k.(serviceCIDR := DEFAULT_SERVICE_CIDR);
    }
    if k.advertiseAddress == "" {
      k := k.(advertiseAddress := DEFAULT_ADVERTISE_ADDRESS);
    }
  }

  method FillDNSDefaults(spec: KlusterSpec, address: string) returns (k: KlusterSpec)
    ensures k == spec.(dnsAddress := OrDefault(spec.dnsAddress, address),
                       dnsDomain := OrDefault(spec.dnsDomain, DEFAULT_DOMAIN))
  {
    k := spec;
    if k.dnsAddress == "" {
      k := k.(dnsAddress := address);
    }
    if k.dnsDomain == "" {
      k := k.(dnsDomain := DEFAULT_DOMAIN);
    }
  }

  /** One status entry per pool of the spec, in the same order. */
  method InitialPoolInfos(pools: seq<NodePool>) returns (infos: seq<NodePoolInfo>)
    ensures |infos| == |pools|
    ensures forall i :: 0 <= i < |pools| ==> infos[i] == NodePoolInfo(pools[i].name, pools[i].size, 0, 0, 0)
  {
    infos := [];
    for i := 0 to |pools|
      invariant |infos| == i
      invariant forall j :: 0 <= j < i ==> infos[j] == NodePoolInfo(pools[j].name, pools[j].size, 0, 0, 0)
    {
      infos := infos + [NodePoolInfo(pools[i].name, pools[i].size, 0, 0, 0)];
    }
  }

  // ----- The create request ----------------------------------------------------------------------

  predicate Duplicates(pools: seq<NodePool>) {
    exists i, j :: 0 <= i < j < |pools| && pools[i] == pools[j]
  }

  predicate HasInfix(s: string, t: string) {
    exists i :: 0 <= i <= |s| - |t| && t <= s[i..]
  }

  function QualifiedName(name: string, account: string): string {
    if HasInfix(name, account) then name else name + "-" + account
  }

  /** The qualified name contains the account, is qualified itself, and begins with the name. */
  lemma QualifiedNames(name: string, account: string)
    ensures var q := QualifiedName(name, account);
            HasInfix(q, account) && QualifiedName(q, account) == q && name <= q
  {
    if !HasInfix(name, account) {
      assert (name + "-" + account)[|name| + 1..] == account;
    }
  }

  /** Two names of one account are kept apart unless one of them is the other's qualified name. */
  lemma QualifiedApartIff(a: string, b: string, account: string)
    ensures QualifiedName(a, account) == QualifiedName(b, account) <==>
            a == b || a == QualifiedName(b, account) || b == QualifiedName(a, account)
  {
    QualifiedNames(a, account);
    QualifiedNames(b, account);
    var tail := "-" + account;
    assert a + "-" + account == a + tail && b + "-" + account == b + tail;
    if a + tail == b + tail {
      assert |a| == |b| && (a + tail)[..|a|] == a && (b + tail)[..|b|] == b;
    }
    hide HasInfix;
  }

  /** What a create request ends in; it dereferences the factory's result without looking at its error. */
  datatype Creation = Rejected | NilDereference | Sent(kluster: Kluster)

  method CreateCluster(name: string, body: KlusterSpec, account: string, commit: string, parse: Parser, format: Printer)
    returns (r: Creation)
    requires ParsesCIDRs(parse)
    ensures r == Rejected <==> Duplicates(body.nodePools)
    ensures r == NilDereference <==> !Duplicates(body.nodePools) && Refusal(body.(name := name), parse).Some?
    ensures r.Sent? ==>
              && NewFor(r.kluster, body.(name := name, nodePools := WithDefaultImages(body.nodePools)),
                        commit, parse, format)
              && r.kluster.name == QualifiedName(name, account) && r.kluster.account == account
  {
    if Duplicates(body.nodePools) {
      return Rejected;
    }
    var spec := body.(name := name);
    var pools := spec.nodePools;
    for i := 0 to |pools|
      invariant |pools| == |body.nodePools|
      invariant forall j :: 0 <= j < i ==> pools[j] == WithDefaultImages(body.nodePools)[j]
      invariant forall j :: i <= j < |pools| ==> pools[j] == body.nodePools[j]
    {
      if pools[i].image == "" {
        pools := pools[i := pools[i].(image := DEFAULT_IMAGE)];
      }
    }
    assert pools == WithDefaultImages(body.nodePools);
    spec := spec.(nodePools := pools);
    var kluster := KlusterFor(spec, commit, parse, format);
    if kluster.Err? {
      return NilDereference;
    }
    return Sent(kluster.value.(name := QualifiedName(name, account), account := account));
  }

  /** Which specs are accepted: named ones with a service CIDR of more than two addresses outside 0.0.0.0/8. */
  lemma AcceptedIff(spec: KlusterSpec, parse: Parser, net: IPNet, prefix: nat)
    requires ParsesCIDRs(parse)
    requires parse(OrDefault(spec.serviceCIDR, DEFAULT_SERVICE_CIDR)) == Some(net) && IsCIDR(net, prefix)
    ensures Refusal(spec, parse).None? <==>
            spec.name != "" && AddressCount(net, prefix) > 2 && Short(net.ip)[0] != 0
  {
    SecondExistsIff(net, prefix);
    hide GetIndexedIP, AddressCount;
  }

  // ----- What follows for the stored record -------------------------------------------------------

  /** A service CIDR with room for the DNS address has room for the API service, at another address. */
  lemma ServiceIPExists(cidr: string, parse: Parser)
    requires ParsesCIDRs(parse)
    requires IndexedIn(cidr, 2, parse).Some?
    ensures IndexedIn(cidr, 1, parse).Some?
    ensures var apiIP, dnsIP := IndexedIn(cidr, 1, parse).value, IndexedIn(cidr, 2, parse).value;
            && Contains(parse(cidr).value, apiIP) && Contains(parse(cidr).value, dnsIP)
            && |apiIP| == |dnsIP| && Value(apiIP) + 1 == Value(dnsIP)
  {
    var net := parse(cidr).value;
    var prefix: nat :| IsCIDR(net, prefix);
    SecondImpliesFirst(net, prefix);
    IndexedIPExact(net, prefix, 1);
    IndexedIPExact(net, prefix, 2);
    hide Value;
  }

  /**
   In every version that any run stores of a new kluster, the API service has an address inside the
   service CIDR, it is not the DNS address unless the request itself fixed that one, and the pools
   in the status are those of the request.
   */
  lemma EveryVersionServes(k: Kluster, spec: KlusterSpec, commit: string, parse: Parser, format: Printer,
                           domain: string, es: seq<Event>, i: nat)
    requires ParsesCIDRs(parse) && PrintsApart(format)
    requires NewFor(k, spec, commit, parse, format)
    requires i < |Run(k, domain, es).hist|
    ensures var v := Run(k, domain, es).hist[i];
            && ApiServiceIP(v, parse).Some?
            && Contains(parse(v.spec.serviceCIDR).value, ApiServiceIP(v, parse).value)
            && (spec.dnsAddress == "" ==> v.spec.dnsAddress != format(ApiServiceIP(v, parse).value))
            && InfoNames(v.status.nodePools) == PoolNames(spec.nodePools)
            && v.status.version == commit
  {
    var v := Run(k, domain, es).hist[i];
    assert Run(k, domain, es).hist[0] == k by {
      FirstVersion(k, domain, es);
    }
    VersionsOnlyDiscover(k, domain, es, 0, i);
    hide Run, Value, Contains, IndexedIn;
    assert InfoNames(k.status.nodePools) == PoolNames(spec.nodePools);
    ServiceIPExists(k.spec.serviceCIDR, parse);
  }

  /** The history starts with the created record. */
  lemma {:induction false} FirstVersion(k: Kluster, domain: string, es: seq<Event>)
    ensures |Run(k, domain, es).hist| > 0 && Run(k, domain, es).hist[0] == k
  {
    if es != [] {
      var n := |es| - 1;
      FirstVersion(k, domain, es[..n]);
      hide Next, StoredWrite;
      StoredWriteAppends(Run(k, domain, es[..n]), es[n]);
    }
  }
}
