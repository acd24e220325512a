/**
 The route garbage collector (pkg/controller/routegc/controller.go): it removes from the
 project's router the routes into the cluster CIDR whose next hop is no server any more.
 */
module RouteCollector {
  import opened Common
  import opened Addresses

  datatype Route = Route(destinationCIDR: string, nextHop: string)

  /** A server with the address entries of each of its networks; None is an entry without address. */
  datatype Server = Server(id: string, addresses: seq<seq<Option<string>>>)

  /** The two ends of the destination are in the cluster's network. */
  predicate Responsible(cluster: IPNet, destination: Option<IPNet>)
    requires |cluster.ip| == |cluster.mask|
    requires destination.Some? ==> |destination.value.ip| == |destination.value.mask|
  {
    destination.Some? &&
    Contains(cluster, destination.value.ip) && Contains(cluster, Last(destination.value.ip, destination.value.mask))
  }

  function Listed(entries: seq<Option<string>>): set<string> {
    if entries == [] then {}
    else
      var entry := entries[|entries| - 1];
      Listed(entries[..|entries| - 1]) + (if entry.Some? then {entry.value} else {})
  }

  function OfNetworks(networks: seq<seq<Option<string>>>): set<string> {
    if networks == [] then {} else OfNetworks(networks[..|networks| - 1]) + Listed(networks[|networks| - 1])
  }

  /** Every address of every server. */
  function Nexthops(servers: seq<Server>): set<string> {
    if servers == [] then {} else Nexthops(servers[..|servers| - 1]) + OfNetworks(servers[|servers| - 1].addresses)
  }

  ghost predicate Orphaned(route: Route, cluster: IPNet, hops: set<string>, parse: Parser)
    requires Parsed(cluster) && ParsesCIDRs(parse)
  {
    Responsible(cluster, parse(route.destinationCIDR)) && route.nextHop !in hops
  }

  /** The routes that stay. */
  ghost function Kept(routes: seq<Route>, cluster: IPNet, hops: set<string>, parse: Parser): seq<Route>
    requires Parsed(cluster) && ParsesCIDRs(parse)
  {
    if routes == [] then []
    else
      var init := Kept(routes[..|routes| - 1], cluster, hops, parse);
      var route := routes[|routes| - 1];
      if Orphaned(route, cluster, hops, parse) then init else init + [route]
  }

  // ----- The code -----------------------------------------------------------------------------

  /** The router as the network service keeps it, and the updates it was sent. */
  class Router {
    var routes: seq<Route>
    var updates: seq<seq<Route>>
  }

  class RouteGarbageCollector {
    const clusterCIDR: IPNet
    const router: Router
    const parse: Parser

    constructor (clusterCIDR: IPNet, router: Router, parse: Parser)
      ensures this.clusterCIDR == clusterCIDR && this.router == router && this.parse == parse
    {
      this.clusterCIDR, this.router, this.parse := clusterCIDR, router, parse;
    }

    ghost predicate Valid() {
      Parsed(clusterCIDR) && ParsesCIDRs(parse)
    }

    method IsResponsibleForRoute(route: Route) returns (yes: bool)
      requires Valid()
      ensures yes == Responsible(clusterCIDR, parse(route.destinationCIDR))
    {
      var parsed := parse(route.destinationCIDR);
      if parsed.None? {
        return false;
      }
      var cidr := parsed.value;
      var lastIP := new byte[|cidr.ip|](_ => 0);
      for i := 0 to lastIP.Length
        invariant forall j :: 0 <= j < i ==> lastIP[j] == OrNot(cidr.ip[j], cidr.mask[j])
      {
        lastIP[i] := OrNot(cidr.ip[i], cidr.mask[i]);
      }
      assert lastIP[..] == Last(cidr.ip, cidr.mask);
      if !Contains(clusterCIDR, cidr.ip) || !Contains(clusterCIDR, lastIP[..]) {
        return false;
      }
      return true;
    }

    /** Every address of every listed server, as keys; nothing reads the values. */
    method ValidNexthops(servers: seq<Server>) returns (hops: map<string, string>)
      ensures hops.Keys == Nexthops(servers)
    {
      hops := map[];
      for i := 0 to |servers|
        invariant hops.Keys == Nexthops(servers[..i])
      {
        assert servers[..i + 1][..i] == servers[..i];
        var networks := servers[i].addresses;
        for j := 0 to |networks|
          invariant hops.Keys == Nexthops(servers[..i]) + OfNetworks(networks[..j])
        {
          assert networks[..j + 1][..j] == networks[..j];
          var entries := networks[j];
          for k := 0 to |entries|
            invariant hops.Keys == Nexthops(servers[..i]) + OfNetworks(networks[..j]) + Listed(entries[..k])
          {
            assert entries[..k + 1][..k] == entries[..k];
            if entries[k].Some? {
              hops := hops[entries[k].value := servers[i].id];
            }
          }
          assert entries[..|entries|] == entries;
        }
        assert networks[..|networks|] == networks;
      }
      assert servers[..|servers|] == servers;
    }

    /**
     One pass. listing and shown say how the two reads went, applied whether the update got through.
     */
    method Reconcile(listing: Option<seq<Server>>, shown: bool, applied: bool)
      requires Valid()
      modifies router
      ensures listing.None? || !shown ==> router.routes == old(router.routes) && router.updates == old(router.updates)
      ensures listing.Some? && shown ==>
                var kept := Kept(old(router.routes), clusterCIDR, Nexthops(listing.value), parse);
                && router.updates == old(router.updates) + (if kept == old(router.routes) then [] else [kept])
                && router.routes == (if applied then kept else old(router.routes))
    {
      if listing.None? {
        return;
      }
      var validNexthops := ValidNexthops(listing.value);
      if !shown {
        return;
      }
      var routes := router.routes;
      ghost var hops := Nexthops(listing.value);
      hide Nexthops, Responsible;
      var newRoutes: seq<Route> := [];
      var updated := false;
      for i := 0 to |routes|
        invariant newRoutes == Kept(routes[..i], clusterCIDR, hops, parse)
        invariant updated <==> |newRoutes| < i
        invariant router.routes == old(router.routes) && router.updates == old(router.updates)
      {
        assert routes[..i + 1][..i] == routes[..i];
        KeptLength(routes[..i], clusterCIDR, hops, parse);
        var responsible := IsResponsibleForRoute(routes[i]);
        if responsible && routes[i].nextHop !in validNexthops {
          updated := true;
          continue;
        }
        newRoutes := newRoutes + [routes[i]];
      }
      assert routes[..|routes|] == routes;
      KeptLength(routes, clusterCIDR, hops, parse);
      if updated {
        router.updates := router.updates + [newRoutes];
        if applied {
          router.routes := newRoutes;
        }
      }
    }
  }

  // ----- What stays ------------------------------------------------------------------------------

  lemma {:induction false} KeptLength(routes: seq<Route>, cluster: IPNet, hops: set<string>, parse: Parser)
    requires Parsed(cluster) && ParsesCIDRs(parse)
    ensures |Kept(routes, cluster, hops, parse)| <= |routes|
    ensures |Kept(routes, cluster, hops, parse)| == |routes| ==> Kept(routes, cluster, hops, parse) == routes
  {
    hide Orphaned;
    if routes != [] {
      KeptLength(routes[..|routes| - 1], cluster, hops, parse);
    }
  }

  /** Nothing changes, and so no update is sent, exactly when no route is orphaned. */
  lemma {:induction false} KeepsAllIff(routes: seq<Route>, cluster: IPNet, hops: set<string>, parse: Parser)
    requires Parsed(cluster) && ParsesCIDRs(parse)
    ensures Kept(routes, cluster, hops, parse) == routes <==>
            forall j :: 0 <= j < |routes| ==> !Orphaned(routes[j], cluster, hops, parse)
  {
    hide Orphaned;
    if routes != [] {
      var n := |routes| - 1;
      var init := routes[..n];
      KeepsAllIff(init, cluster, hops, parse);
      KeptLength(init, cluster, hops, parse);
      assert routes == init + [routes[n]];
      if Kept(routes, cluster, hops, parse) == routes {
        assert Kept(init, cluster, hops, parse) == routes[..n];
      }
    }
  }

  /** picked lists, in order, exactly the positions of the routes that are not orphaned. */
  ghost predicate Survivors(routes: seq<Route>, picked: seq<nat>, cluster: IPNet, hops: set<string>, parse: Parser)
    requires Parsed(cluster) && ParsesCIDRs(parse)
  {
    && (forall a, b :: 0 <= a < b < |picked| ==> picked[a] < picked[b])
    && (forall a :: 0 <= a < |picked| ==> picked[a] < |routes|)
    && (forall i :: 0 <= i < |routes| ==> (i in picked <==> !Orphaned(routes[i], cluster, hops, parse)))
  }

  /** What stays is the subsequence of the routes that are not orphaned, in their order. */
  lemma {:induction false} KeptIsSubsequence(routes: seq<Route>, cluster: IPNet, hops: set<string>, parse: Parser)
    returns (picked: seq<nat>)
    requires Parsed(cluster) && ParsesCIDRs(parse)
    ensures Survivors(routes, picked, cluster, hops, parse)
    ensures |Kept(routes, cluster, hops, parse)| == |picked|
    ensures forall a :: 0 <= a < |picked| ==> Kept(routes, cluster, hops, parse)[a] == routes[picked[a]]
  {
    hide Orphaned;
    picked := [];
    if routes != [] {
      var n := |routes| - 1;
      picked := KeptIsSubsequence(routes[..n], cluster, hops, parse);
      if !Orphaned(routes[n], cluster, hops, parse) {
        picked := picked + [n];
      }
    }
  }

  /** A second pass drops nothing, even when servers were added in between. */
  lemma SecondPassKeepsAll(routes: seq<Route>, cluster: IPNet, hops: set<string>, later: set<string>, parse: Parser)
    requires Parsed(cluster) && ParsesCIDRs(parse) && hops <= later
    ensures var kept := Kept(routes, cluster, hops, parse);
            Kept(kept, cluster, later, parse) == kept
  {
    var kept := Kept(routes, cluster, hops, parse);
    var picked := KeptIsSubsequence(routes, cluster, hops, parse);
    forall j | 0 <= j < |kept|
      ensures !Orphaned(kept[j], cluster, later, parse)
    {
      assert picked[j] in picked;
      assert !Orphaned(routes[picked[j]], cluster, hops, parse);
    }
    KeepsAllIff(kept, cluster, later, parse);
  }

  // ----- What the two end points decide ------------------------------------------------------------

  ghost predicate Covers(outer: IPNet, inner: IPNet)
    requires |outer.ip| == |outer.mask| && |inner.ip| == |inner.mask|
  {
    forall ip: seq<byte> :: Contains(inner, ip) ==> Contains(outer, ip)
  }

  /** For an IPv4 destination the two ends are in the cluster's network only if every address is. */
  lemma ResponsibleIffCovered(cluster: IPNet, destination: IPNet)
    requires Parsed(cluster) && Parsed(destination) && |destination.ip| == 4
    ensures Responsible(cluster, Some(destination)) <==> Covers(cluster, destination)
  {
    var q: nat :| IsCIDR(cluster, q);
    var p: nat :| IsCIDR(destination, p);
    var last := Last(destination.ip, destination.mask);
    assert Short(destination.ip) == destination.ip && Short(last) == last;
    assert Value(last) == First(destination) + AddressCount(destination, p) - 1 by {
      MaskRounds(destination.ip, p);
      ShortForm(destination, p);
    }
    hide Value, Contains, Last, And, OrNot, Size, CIDRMask, Short;
    ContainsIff(destination, p, destination.ip);
    ContainsIff(destination, p, last);
    ContainsIff(cluster, q, destination.ip);
    ContainsIff(cluster, q, last);
    if Responsible(cluster, Some(destination)) {
      forall ip: seq<byte> | Contains(destination, ip)
        ensures Contains(cluster, ip)
      {
        ContainsIff(destination, p, ip);
        ContainsIff(cluster, q, ip);
      }
    }
  }

  lemma {:induction false} ListedIff(entries: seq<Option<string>>, addr: string)
    ensures addr in Listed(entries) <==> Some(addr) in entries
  {
    if entries != [] {
      var n := |entries| - 1;
      ListedIff(entries[..n], addr);
      assert entries == entries[..n] + [entries[n]];
    }
  }

  lemma {:induction false} OfNetworksIff(networks: seq<seq<Option<string>>>, addr: string)
    ensures addr in OfNetworks(networks) <==> exists entries <- networks :: Some(addr) in entries
  {
    if networks != [] {
      var n := |networks| - 1;
      OfNetworksIff(networks[..n], addr);
      ListedIff(networks[n], addr);
      assert networks == networks[..n] + [networks[n]];
    }
  }

  lemma {:induction false} NexthopsIff(servers: seq<Server>, addr: string)
    ensures addr in Nexthops(servers) <==>
            exists server <- servers, entries <- server.addresses :: Some(addr) in entries
  {
    if servers != [] {
      var n := |servers| - 1;
      NexthopsIff(servers[..n], addr);
      OfNetworksIff(servers[n].addresses, addr);
      assert servers == servers[..n] + [servers[n]];
    }
  }

  /** A route goes exactly when all of its destination is inside the cluster and nobody has its next hop. */
  lemma OrphanedIff(route: Route, cluster: IPNet, servers: seq<Server>, parse: Parser)
    requires Parsed(cluster) && ParsesCIDRs(parse)
    requires parse(route.destinationCIDR).Some? ==> |parse(route.destinationCIDR).value.ip| == 4
    ensures Orphaned(route, cluster, Nexthops(servers), parse) <==>
            && parse(route.destinationCIDR).Some?
            && Covers(cluster, parse(route.destinationCIDR).value)
            && !exists server <- servers, entries <- server.addresses :: Some(route.nextHop) in entries
  {
    NexthopsIff(servers, route.nextHop);
    if parse(route.destinationCIDR).Some? {
      ResponsibleIffCovered(cluster, parse(route.destinationCIDR).value);
    }
  }
}
