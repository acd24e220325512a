/**
 The routes of the wormhole server (pkg/wormhole/server): which tunnel routes exist after
 nodes came, changed and went, with calls that fail half way.
 */
module TunnelRoutes {
  import opened Common

  datatype Route = Route(cidr: string, identifier: string)

  /** The tunnel server keys its routes by the parsed network. */
  type Parser = string -> Option<string>

  /** What the controller remembers per node key, and what is installed in the tunnel server. */
  datatype Routes = Routes(store: map<string, seq<Route>>, client: set<(string, string)>, generic: set<string>)

  /** A cached node, with the host address already selected; None if it has no usable address. */
  datatype Node = Node(podCIDR: string, hostIP: Option<string>)

  const PREFIX := "system:node:"

  /** Node keys are node names, as nodes are not namespaced. */
  function Identifier(key: string): string {
    PREFIX + key
  }

  lemma IdentifierInjective(a: string, b: string)
    requires Identifier(a) == Identifier(b)
    ensures a == b
  {
    assert Identifier(a)[|PREFIX|..] == a && Identifier(b)[|PREFIX|..] == b;
  }

  function Recorded(s: Routes, key: string): seq<Route> {
    if key in s.store then s.store[key] else []
  }

  function Record(s: Routes, key: string, r: Route): Routes {
    s.(store := s.store[key := Recorded(s, key) + [r]])
  }

  /** AddClientRoute, append to the store, AddRoute; false if one of the calls fails. */
  function AddPair(s: Routes, parse: Parser, key: string, cidr: string, clientOK: bool, genericOK: bool)
    : (Routes, bool)
  {
    if !clientOK || parse(cidr).None? then (s, false)
    else
      var net := parse(cidr).value;
      var t := Record(s.(client := s.client + {(net, Identifier(key))}), key, Route(cidr, Identifier(key)));
      if !genericOK then (t, false) else (t.(generic := t.generic + {net}), true)
  }

  /** addNode up to the firewall; calls says which of the four tunnel calls succeed. */
  function AddNode(s: Routes, parse: Parser, key: string, node: Node, calls: nat -> bool): (Routes, bool) {
    if node.hostIP.None? then (s, false)
    else
      var (t, ok) := AddPair(s, parse, key, node.podCIDR, calls(0), calls(1));
      if !ok then (t, false) else AddPair(t, parse, key, node.hostIP.value + "/32", calls(2), calls(3))
  }

  /** Deleting a route whose CIDR does not parse is an error that is ignored. */
  function Undo(s: Routes, parse: Parser, r: Route): Routes {
    match parse(r.cidr)
    case None => s
    case Some(net) => s.(client := s.client - {(net, r.identifier)}, generic := s.generic - {net})
  }

  function UndoAll(s: Routes, parse: Parser, rs: seq<Route>): Routes {
    if rs == [] then s else Undo(UndoAll(s, parse, rs[..|rs| - 1]), parse, rs[|rs| - 1])
  }

  /** delNode up to the firewall: the store keeps the entries. */
  function DelNode(s: Routes, parse: Parser, key: string): Routes {
    UndoAll(s, parse, Recorded(s, key))
  }

  // ----- Runs ---------------------------------------------------------------------------------------------

  /** Reconciling a key: its node is in the cache, in whatever form, or it is not. */
  datatype Event = Present(key: string, node: Node, calls: nat -> bool) | Absent(key: string)

  function Next(s: Routes, parse: Parser, e: Event): Routes {
    match e
    case Present(key, node, calls) => AddNode(s, parse, key, node, calls).0
    case Absent(key) => DelNode(s, parse, key)
  }

  function Exec(parse: Parser, es: seq<Event>): Routes {
    if es == [] then Routes(map[], {}, {}) else Next(Exec(parse, es[..|es| - 1]), parse, es[|es| - 1])
  }

  ghost predicate ClientRecorded(s: Routes, parse: Parser, net: string, identifier: string) {
    exists key, i :: key in s.store && 0 <= i < |s.store[key]| &&
      identifier == Identifier(key) && parse(s.store[key][i].cidr) == Some(net)
  }

  ghost predicate GenericRecorded(s: Routes, parse: Parser, net: string) {
    exists key, i :: key in s.store && 0 <= i < |s.store[key]| && parse(s.store[key][i].cidr) == Some(net)
  }

  /** Everything installed is in the store, and the store knows whose routes they are. */
  ghost predicate AllRecorded(s: Routes, parse: Parser) {
    && (forall c <- s.client :: ClientRecorded(s, parse, c.0, c.1))
    && (forall net <- s.generic :: GenericRecorded(s, parse, net))
    && (forall key <- s.store :: forall i :: 0 <= i < |s.store[key]| ==> s.store[key][i].identifier == Identifier(key))
  }

  lemma RecordKeeps(s: Routes, parse: Parser, key: string, r: Route, net: string)
    requires AllRecorded(s, parse) && r.identifier == Identifier(key) && parse(r.cidr) == Some(net)
    ensures AllRecorded(Record(s, key, r), parse)
    ensures ClientRecorded(Record(s, key, r), parse, net, Identifier(key)) &&
      GenericRecorded(Record(s, key, r), parse, net)
  {
    var t := Record(s, key, r);
    var n := |Recorded(s, key)|;
    assert t.store[key][n] == r;
    forall c | c in s.client ensures ClientRecorded(t, parse, c.0, c.1) {
      var k, i :| k in s.store && 0 <= i < |s.store[k]| && c.1 == Identifier(k) &&
        parse(s.store[k][i].cidr) == Some(c.0);
      assert t.store[k][i] == s.store[k][i];
    }
    forall g | g in s.generic ensures GenericRecorded(t, parse, g) {
      var k, i :| k in s.store && 0 <= i < |s.store[k]| && parse(s.store[k][i].cidr) == Some(g);
      assert t.store[k][i] == s.store[k][i];
    }
  }

  lemma AddPairKeeps(s: Routes, parse: Parser, key: string, cidr: string, clientOK: bool, genericOK: bool)
    requires AllRecorded(s, parse)
    ensures AllRecorded(AddPair(s, parse, key, cidr, clientOK, genericOK).0, parse)
  {
    if clientOK && parse(cidr).Some? {
      var net := parse(cidr).value;
      RecordKeeps(s, parse, key, Route(cidr, Identifier(key)), net);
      var t := Record(s, key, Route(cidr, Identifier(key)));
      assert ClientRecorded(t, parse, net, Identifier(key));
      InstallKeeps(t, parse, net, Identifier(key), genericOK);
    }
  }

  /** Installing what the store has recorded. */
  lemma InstallKeeps(t: Routes, parse: Parser, net: string, identifier: string, both: bool)
    requires AllRecorded(t, parse) && ClientRecorded(t, parse, net, identifier) && GenericRecorded(t, parse, net)
    ensures AllRecorded(t.(client := t.client + {(net, identifier)}), parse)
    ensures AllRecorded(t.(client := t.client + {(net, identifier)}, generic := t.generic + {net}), parse)
  {
    var u := t.(client := t.client + {(net, identifier)});
    SameStore(t, u, parse);
    SameStore(t, u.(generic := u.generic + {net}), parse);
    hide ClientRecorded, GenericRecorded;
  }

  lemma SameStore(s: Routes, t: Routes, parse: Parser)
    requires s.store == t.store
    ensures forall net, identifier ::
              ClientRecorded(s, parse, net, identifier) ==> ClientRecorded(t, parse, net, identifier)
    ensures forall net :: GenericRecorded(s, parse, net) ==> GenericRecorded(t, parse, net)
  {
  }

  lemma {:induction false} UndoAllExact(s: Routes, parse: Parser, rs: seq<Route>)
    ensures UndoAll(s, parse, rs).store == s.store
    ensures forall c :: c in UndoAll(s, parse, rs).client <==>
                        c in s.client && forall r <- rs :: !(parse(r.cidr) == Some(c.0) && r.identifier == c.1)
    ensures forall net :: net in UndoAll(s, parse, rs).generic <==>
                          net in s.generic && forall r <- rs :: parse(r.cidr) != Some(net)
    decreases |rs|
  {
    if rs != [] {
      var n := |rs| - 1;
      UndoAllExact(s, parse, rs[..n]);
      assert forall r :: r in rs <==> r in rs[..n] || r == rs[n];
    }
  }

  lemma NextKeeps(s: Routes, parse: Parser, e: Event)
    requires AllRecorded(s, parse)
    ensures AllRecorded(Next(s, parse, e), parse)
  {
    hide AllRecorded, AddPair, UndoAll;
    match e
    case Present(key, node, calls) =>
      if node.hostIP.Some? {
        AddPairKeeps(s, parse, key, node.podCIDR, calls(0), calls(1));
        var t := AddPair(s, parse, key, node.podCIDR, calls(0), calls(1)).0;
        AddPairKeeps(t, parse, key, node.hostIP.value + "/32", calls(2), calls(3));
      }
    case Absent(key) => DelNodeKeeps(s, parse, key);
  }

  lemma DelNodeKeeps(s: Routes, parse: Parser, key: string)
    requires AllRecorded(s, parse)
    ensures AllRecorded(DelNode(s, parse, key), parse)
  {
    UndoAllExact(s, parse, Recorded(s, key));
    var t := DelNode(s, parse, key);
    SameStore(s, t, parse);
    hide ClientRecorded, GenericRecorded, UndoAll;
  }

  /** In every run, every installed client route and generic route is recorded in the store. */
  lemma {:induction false} AlwaysRecorded(parse: Parser, es: seq<Event>)
    ensures AllRecorded(Exec(parse, es), parse)
    decreases |es|
  {
    if es != [] {
      AlwaysRecorded(parse, es[..|es| - 1]);
      NextKeeps(Exec(parse, es[..|es| - 1]), parse, es[|es| - 1]);
      hide AllRecorded, Next;
    }
  }

  /** After delNode no client route of that node is left; the other nodes' client routes all are. */
  lemma DelNodeRemovesClient(parse: Parser, es: seq<Event>, key: string)
    ensures var s := Exec(parse, es);
            forall c :: c in DelNode(s, parse, key).client <==> c in s.client && c.1 != Identifier(key)
  {
    var s := Exec(parse, es);
    AlwaysRecorded(parse, es);
    var rs := Recorded(s, key);
    UndoAllExact(s, parse, rs);
    forall c | c in s.client
      ensures c.1 == Identifier(key) <==> exists r :: r in rs && parse(r.cidr) == Some(c.0) && r.identifier == c.1
    {
      if c.1 == Identifier(key) {
        var k, i :| k in s.store && 0 <= i < |s.store[k]| && c.1 == Identifier(k) &&
          parse(s.store[k][i].cidr) == Some(c.0);
        IdentifierInjective(k, key);
        assert s.store[k][i] in rs;
      }
    }
  }

  /**
   Generic routes have no owner: after delNode one is left exactly if the store never recorded
   its network for that node, whether or not another node still needs it.
   */
  lemma DelNodeRemovesGeneric(parse: Parser, es: seq<Event>, key: string, net: string)
    ensures var s := Exec(parse, es);
            net in DelNode(s, parse, key).generic <==>
            net in s.generic && forall r <- Recorded(s, key) :: parse(r.cidr) != Some(net)
  {
    UndoAllExact(Exec(parse, es), parse, Recorded(Exec(parse, es), key));
  }

  lemma ExecSnoc(parse: Parser, es: seq<Event>, e: Event)
    ensures Exec(parse, es + [e]) == Next(Exec(parse, es), parse, e)
  {
    assert (es + [e])[..|es + [e]| - 1] == es;
  }

  lemma FirstPodCIDR(s: Routes, parse: Parser, key: string, node: Node, calls: nat -> bool, net: string)
    requires parse(node.podCIDR) == Some(net) && node.hostIP.Some? && parse(node.hostIP.value + "/32").Some?
    requires forall n: nat :: calls(n)
    ensures var t := AddNode(s, parse, key, node, calls).0;
            net in t.generic && Route(node.podCIDR, Identifier(key)) in Recorded(t, key)
    ensures var t := AddNode(s, parse, key, node, calls).0;
            forall k :: k != key ==> Recorded(t, k) == Recorded(s, k)
  {
    var half := AddPair(s, parse, key, node.podCIDR, true, true).0;
    var r := Route(node.podCIDR, Identifier(key));
    assert Recorded(half, key)[|Recorded(s, key)|] == r;
    var t := AddPair(half, parse, key, node.hostIP.value + "/32", true, true).0;
    assert Recorded(t, key)[|Recorded(s, key)|] == r;
  }

  /** So a node that took over the pod CIDR of a departed one loses its generic route on the next recheck. */
  lemma ReusedCIDRLosesRoute(parse: Parser, gone: string, live: string, was: Node, now: Node, calls: nat -> bool,
      net: string)
    requires gone != live && was.podCIDR == now.podCIDR && parse(was.podCIDR) == Some(net)
    requires was.hostIP.Some? && now.hostIP.Some? && (forall n: nat :: calls(n))
    requires parse(now.hostIP.value + "/32").Some? && parse(was.hostIP.value + "/32").Some?
    ensures var es := [Present(gone, was, calls), Absent(gone), Present(live, now, calls)];
            net in Exec(parse, es).generic && net !in Exec(parse, es + [Absent(gone)]).generic
  {
    var e0, e1, e2 := Present(gone, was, calls), Absent(gone), Present(live, now, calls);
    ExecThree(parse, e0, e1, e2);
    ExecSnoc(parse, [e0, e1, e2], e1);
    ThreeSteps(Routes(map[], {}, {}), parse, gone, live, was, now, calls, net);
  }

  lemma ExecThree(parse: Parser, a: Event, b: Event, c: Event)
    ensures Exec(parse, [a, b, c]) == Next(Next(Next(Routes(map[], {}, {}), parse, a), parse, b), parse, c)
  {
    ExecSnoc(parse, [], a);
    ExecSnoc(parse, [a], b);
    ExecSnoc(parse, [a, b], c);
    assert [] + [a] == [a] && [a] + [b] == [a, b] && [a, b] + [c] == [a, b, c];
  }

  lemma ThreeSteps(s: Routes, parse: Parser, gone: string, live: string, was: Node, now: Node, calls: nat -> bool,
      net: string)
    requires gone != live && was.podCIDR == now.podCIDR && parse(was.podCIDR) == Some(net)
    requires was.hostIP.Some? && now.hostIP.Some? && (forall n: nat :: calls(n))
    requires parse(now.hostIP.value + "/32").Some? && parse(was.hostIP.value + "/32").Some?
    ensures var s2 := AddNode(DelNode(AddNode(s, parse, gone, was, calls).0, parse, gone), parse, live, now, calls).0;
            net in s2.generic && net !in DelNode(s2, parse, gone).generic
  {
    var s0 := AddNode(s, parse, gone, was, calls).0;
    var s1 := DelNode(s0, parse, gone);
    var s2 := AddNode(s1, parse, live, now, calls).0;
    FirstPodCIDR(s, parse, gone, was, calls, net);
    FirstPodCIDR(s1, parse, live, now, calls, net);
    hide AddNode, UndoAll, Identifier;
    UndoAllExact(s0, parse, Recorded(s0, gone));
    assert Recorded(s1, gone) == Recorded(s0, gone);
    assert Recorded(s2, gone) == Recorded(s1, gone);
    UndoAllExact(s2, parse, Recorded(s2, gone));
  }

  // ----- What a node that is there gets ---------------------------------------------------------------------

  function HostCIDR(hostIP: string): string {
    hostIP + "/32"
  }

  /** The node has an address, both its CIDRs parse, and all four calls work. */
  predicate Installable(parse: Parser, node: Node, calls: nat -> bool) {
    && node.hostIP.Some? && parse(node.podCIDR).Some? && parse(HostCIDR(node.hostIP.value)).Some?
    && calls(0) && calls(1) && calls(2) && calls(3)
  }

  /** One CIDR of a node: client route, generic route and store entry. */
  predicate PairInstalled(s: Routes, parse: Parser, key: string, cidr: string) {
    && parse(cidr).Some?
    && (parse(cidr).value, Identifier(key)) in s.client
    && parse(cidr).value in s.generic
    && Route(cidr, Identifier(key)) in Recorded(s, key)
  }

  predicate NodeInstalled(s: Routes, parse: Parser, key: string, node: Node) {
    && node.hostIP.Some?
    && PairInstalled(s, parse, key, node.podCIDR)
    && PairInstalled(s, parse, key, HostCIDR(node.hostIP.value))
  }

  /**
   addNode succeeds exactly under these conditions; then both pairs are installed and recorded, in this
   order, and nothing else changed.
   */
  lemma AddNodeSucceedsIff(s: Routes, parse: Parser, key: string, node: Node, calls: nat -> bool)
    ensures AddNode(s, parse, key, node, calls).1 <==> Installable(parse, node, calls)
    ensures Installable(parse, node, calls) ==>
              var t := AddNode(s, parse, key, node, calls).0;
              var pod, host := parse(node.podCIDR).value, parse(HostCIDR(node.hostIP.value)).value;
              && NodeInstalled(t, parse, key, node)
              && t.client == s.client + {(pod, Identifier(key)), (host, Identifier(key))}
              && t.generic == s.generic + {pod, host}
              && Recorded(t, key) ==
                 Recorded(s, key) +
                 [Route(node.podCIDR, Identifier(key)), Route(HostCIDR(node.hostIP.value), Identifier(key))]
              && forall k :: k != key ==> Recorded(t, k) == Recorded(s, k)
  {
    if Installable(parse, node, calls) {
      var id, rs := Identifier(key), Recorded(s, key);
      var a, b := Route(node.podCIDR, id), Route(HostCIDR(node.hostIP.value), id);
      var t := AddNode(s, parse, key, node, calls).0;
      assert Recorded(t, key) == rs + [a] + [b] == rs + [a, b];
      assert (rs + [a, b])[|rs|] == a && (rs + [a, b])[|rs| + 1] == b;
      hide Identifier;
    }
  }

  /** A reconciliation of one key leaves the client routes of every other one alone. */
  lemma OthersKeepClient(s: Routes, parse: Parser, e: Event, key: string)
    requires AllRecorded(s, parse) && e.key != key
    ensures forall net :: (net, Identifier(key)) in s.client <==> (net, Identifier(key)) in Next(s, parse, e).client
  {
    if Identifier(e.key) == Identifier(key) { IdentifierInjective(e.key, key); }
    hide Identifier;
    match e
    case Present(k, node, calls) =>
    case Absent(k) =>
      UndoAllExact(s, parse, Recorded(s, k));
      assert forall r <- Recorded(s, k) :: r.identifier == Identifier(k);
      hide UndoAll;
  }

  /** Event n is the last one of this key. */
  predicate LastOf(es: seq<Event>, n: nat, key: string) {
    n < |es| && es[n].key == key && forall m :: n < m < |es| ==> es[m].key != key
  }

  /**
   After any run whose last event for a key is a reconciliation of its node that succeeded, both client
   routes of the node are installed.
   */
  lemma {:induction false} PresentNodeReachable(parse: Parser, es: seq<Event>, n: nat, key: string)
    requires LastOf(es, n, key) && es[n].Present? && Installable(parse, es[n].node, es[n].calls)
    ensures var id, node := Identifier(key), es[n].node;
            && (parse(node.podCIDR).value, id) in Exec(parse, es).client
            && (parse(HostCIDR(node.hostIP.value)).value, id) in Exec(parse, es).client
    decreases |es|
  {
    var before, last := es[..|es| - 1], es[|es| - 1];
    var s := Exec(parse, before);
    if n == |es| - 1 {
      AddNodeSucceedsIff(s, parse, last.key, last.node, last.calls);
    } else {
      assert before[n] == es[n];
      PresentNodeReachable(parse, before, n, key);
      AlwaysRecorded(parse, before);
      OthersKeepClient(s, parse, last, key);
    }
    hide Installable, AddNode, Identifier, AllRecorded, UndoAll;
  }

  /** And after one whose last event for a key finds the node gone, none of its client routes is. */
  lemma {:induction false} AbsentNodeUnreachable(parse: Parser, es: seq<Event>, n: nat, key: string, net: string)
    requires LastOf(es, n, key) && es[n].Absent?
    ensures (net, Identifier(key)) !in Exec(parse, es).client
    decreases |es|
  {
    var before, last := es[..|es| - 1], es[|es| - 1];
    var s := Exec(parse, before);
    if n == |es| - 1 {
      DelNodeRemovesClient(parse, before, last.key);
    } else {
      assert before[n] == es[n];
      AbsentNodeUnreachable(parse, before, n, key, net);
      AlwaysRecorded(parse, before);
      OthersKeepClient(s, parse, last, key);
    }
    hide AddNode, Identifier, AllRecorded, UndoAll;
  }

  // ----- Generic routes over runs ---------------------------------------------------------------------------

  /** The calls that install a generic route for a network: those before it work, too. */
  predicate AddsGeneric(parse: Parser, node: Node, calls: nat -> bool, net: string) {
    && node.hostIP.Some? && parse(node.podCIDR).Some? && calls(0) && calls(1)
    && (parse(node.podCIDR).value == net ||
        (parse(HostCIDR(node.hostIP.value)) == Some(net) && calls(2) && calls(3)))
  }

  predicate Installs(parse: Parser, e: Event, net: string) {
    e.Present? && AddsGeneric(parse, e.node, e.calls, net)
  }

  /** The key is gone, and the store has recorded the network for it. */
  predicate Removes(s: Routes, parse: Parser, e: Event, net: string) {
    e.Absent? && exists r <- Recorded(s, e.key) :: parse(r.cidr) == Some(net)
  }

  lemma GenericNext(s: Routes, parse: Parser, e: Event, net: string)
    ensures net in Next(s, parse, e).generic <==>
            Installs(parse, e, net) || (net in s.generic && !Removes(s, parse, e, net))
  {
    match e
    case Present(key, node, calls) => hide Identifier;
    case Absent(key) => UndoAllExact(s, parse, Recorded(s, key));
      hide UndoAll;
  }

  /** Event m installs the generic route, and no later event removes it. */
  ghost predicate KeptSince(parse: Parser, es: seq<Event>, net: string, m: nat) {
    && m < |es| && Installs(parse, es[m], net)
    && forall n :: m < n < |es| ==> !Removes(Exec(parse, es[..n]), parse, es[n], net)
  }

  /**
   After any run a generic route is installed exactly if some reconciliation installed it and no key
   for which the store has recorded its network was found gone since, whosever it is now.
   */
  lemma {:induction false} GenericInstalledIff(parse: Parser, es: seq<Event>, net: string)
    ensures net in Exec(parse, es).generic <==> exists m :: KeptSince(parse, es, net, m)
    decreases |es|
  {
    hide Installs, Removes, Next, KeptSince;
    if es != [] {
      var before, last := es[..|es| - 1], es[|es| - 1];
      GenericInstalledIff(parse, before, net);
      GenericNext(Exec(parse, before), parse, last, net);
      KeptSnoc(parse, es, net);
    } else {
      NotKept(parse, net);
    }
  }

  lemma NotKept(parse: Parser, net: string)
    ensures forall m :: !KeptSince(parse, [], net, m)
  {
  }

  lemma KeptSnoc(parse: Parser, es: seq<Event>, net: string)
    requires es != []
    ensures var before, last := es[..|es| - 1], es[|es| - 1];
            (exists m :: KeptSince(parse, es, net, m)) <==>
            Installs(parse, last, net) ||
            ((exists m :: KeptSince(parse, before, net, m)) && !Removes(Exec(parse, before), parse, last, net))
  {
    hide Installs, Removes, Exec;
    var before, last := es[..|es| - 1], es[|es| - 1];
    assert forall n :: 0 <= n < |before| ==> before[..n] == es[..n] && before[n] == es[n];
    if Installs(parse, last, net) {
      assert KeptSince(parse, es, net, |es| - 1);
    } else {
      forall m ensures KeptSince(parse, es, net, m) <==>
                       KeptSince(parse, before, net, m) && !Removes(Exec(parse, before), parse, last, net)
      {
        KeptOn(parse, es, net, m);
      }
    }
  }

  lemma KeptOn(parse: Parser, es: seq<Event>, net: string, m: nat)
    requires es != [] && !Installs(parse, es[|es| - 1], net)
    ensures var before, last := es[..|es| - 1], es[|es| - 1];
            KeptSince(parse, es, net, m) <==>
            KeptSince(parse, before, net, m) && !Removes(Exec(parse, before), parse, last, net)
  {
    hide Installs, Removes, Exec;
    var before := es[..|es| - 1];
    assert forall n :: 0 <= n < |before| ==> before[..n] == es[..n] && before[n] == es[n];
  }
}
