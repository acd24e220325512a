/**
 The wormhole controller (pkg/wormhole/server/controller.go) as imperative code: it keeps
 the store, the tunnel server's routes and the firewall chain.
 */
module WormholeController {
  import opened Common
  import opened SaveRestore
  import opened TunnelRoutes
  import opened TunnelRules

  /** How the firewall commands end; saved is the output of iptables-save, None if it fails. */
  datatype FirewallEnv = FirewallEnv(chainOK: bool, ruleOK: bool, saved: Option<string>, restoreOK: bool)

  /** The saved table, if there is one, has no chain line that makes the parser panic. */
  ghost predicate Parses(saved: Option<string>) {
    saved.None? || Chains(Section(Lines(saved.value, 0), "*nat"), map[]).Some?
  }

  datatype Redo = Redone | GaveUp | Panicked

  const OUTPUT := "OUTPUT"
  const JUMP := "-m comment --comment \"kubernikus tunnels\" -j " + TUNNELS

  /** The rules of OUTPUT after the firewall was redone: the jump is appended where it is missing. */
  function WithJump(rules: seq<string>, env: FirewallEnv): seq<string> {
    if env.chainOK && env.ruleOK && JUMP !in rules then rules + [JUMP] else rules
  }

  function WithJumps(rules: seq<string>, envs: seq<FirewallEnv>): seq<string> {
    if envs == [] then rules else WithJump(WithJumps(rules, envs[..|envs| - 1]), envs[|envs| - 1])
  }

  /** However often that is done, from rules without a jump there is one exactly if it ever got that far, never two. */
  lemma {:induction false} OneJump(rules: seq<string>, envs: seq<FirewallEnv>)
    requires JUMP !in rules
    ensures WithJumps(rules, envs) ==
            rules + if exists env <- envs :: env.chainOK && env.ruleOK then [JUMP] else []
    decreases |envs|
  {
    if envs == [] {
      assert rules + [] == rules;
    } else {
      var before, last := envs[..|envs| - 1], envs[|envs| - 1];
      OneJump(rules, before);
      assert forall env :: env in envs <==> env in before || env == last;
      assert (rules + [JUMP])[|rules|] == JUMP;
      assert rules + [] == rules;
    }
  }

  lemma {:induction false} RedirectsClean(order: seq<string>, nodes: map<string, Node>)
    requires Redirects(order, nodes).Some?
    requires forall k :: k in order && k in nodes ==> CleanNode(k, nodes[k])
    ensures CleanAll(Redirects(order, nodes).value)
    decreases |order|
  {
    if order != [] {
      RedirectsClean(order[..|order| - 1], nodes);
      assert order[|order| - 1] in order;
      KeyRedirectsClean(order[|order| - 1], nodes);
      hide KeyRedirects, CleanNode, CleanRedirect;
    }
  }

  lemma KeyRedirectsClean(key: string, nodes: map<string, Node>)
    requires KeyRedirects(key, nodes).Some? && (key in nodes ==> CleanNode(key, nodes[key]))
    ensures CleanAll(KeyRedirects(key, nodes).value)
  {
    if key in nodes {
      QuotedClean("\"node ip tunnel redirect for ", key);
      QuotedClean("\"pod cidr tunnel redirect for ", key);
    }
  }

  lemma QuotedClean(prefix: string, key: string)
    requires '\n' !in prefix && '\n' !in key
    ensures '\n' !in prefix + key + "\""
  {
  }

  predicate CleanNode(key: string, node: Node) {
    '\n' !in key && '\n' !in node.podCIDR && (node.hostIP.Some? ==> '\n' !in node.hostIP.value)
  }

  class Controller {
    const parse: Parser
    const serviceCIDR: string
    var nodes: map<string, Node>      // the informer's cache
    var store: map<string, seq<Route>>
    var client: set<(string, string)>
    var generic: set<string>
    var fw: Firewall

    constructor (parse: Parser, serviceCIDR: string, nodes: map<string, Node>, fw: Firewall)
      ensures State() == Routes(map[], {}, {}) && this.parse == parse && this.fw == fw && this.nodes == nodes
    {
      this.parse, this.serviceCIDR, this.nodes, this.fw := parse, serviceCIDR, nodes, fw;
      store, client, generic := map[], {}, {};
    }

    ghost function State(): Routes
      reads this
    {
      Routes(store, client, generic)
    }

    /** No name or address that goes into the rules contains a newline. */
    ghost predicate Clean()
      reads this
    {
      '\n' !in serviceCIDR && forall k :: k in store && k in nodes ==> CleanNode(k, nodes[k])
    }

    method AddClientRoute(cidr: string, identifier: string, up: bool) returns (ok: bool)
      modifies `client
      ensures ok == (up && identifier != "" && parse(cidr).Some?)
      ensures client == if ok then old(client) + {(parse(cidr).value, identifier)} else old(client)
    {
      if !up || identifier == "" { return false; }
      var net := parse(cidr);
      if net.None? { return false; }
      client := client + {(net.value, identifier)};
      return true;
    }

    method AddRoute(cidr: string, up: bool) returns (ok: bool)
      modifies `generic
      ensures ok == (up && parse(cidr).Some?)
      ensures generic == if ok then old(generic) + {parse(cidr).value} else old(generic)
    {
      if !up { return false; }
      var net := parse(cidr);
      if net.None? { return false; }
      generic := generic + {net.value};
      return true;
    }

    method DeleteClientRoute(cidr: string, identifier: string)
      modifies `client
      ensures client ==
              old(client) - if parse(cidr).Some? && identifier != "" then {(parse(cidr).value, identifier)} else {}
    {
      var net := parse(cidr);
      if net.Some? && identifier != "" {
        client := client - {(net.value, identifier)};
      }
    }

    method DeleteRoute(cidr: string)
      modifies `generic
      ensures generic == old(generic) - if parse(cidr).Some? then {parse(cidr).value} else {}
    {
      var net := parse(cidr);
      if net.Some? {
        generic := generic - {net.value};
      }
    }

    /** One AddClientRoute, append, AddRoute sequence of addNode. */
    method InstallPair(key: string, cidr: string, clientUp: bool, genericUp: bool) returns (ok: bool)
      modifies `client, `generic, `store
      ensures (State(), ok) == AddPair(old(State()), parse, key, cidr, clientUp, genericUp)
    {
      var identifier := PREFIX + key;
      ok := AddClientRoute(cidr, identifier, clientUp);
      if !ok { return; }
      store := store[key := (if key in store then store[key] else []) + [Route(cidr, identifier)]];
      ok := AddRoute(cidr, genericUp);
    }

    method AddNode(key: string, node: Node, calls: nat -> bool, env: FirewallEnv)
      returns (r: Redo, ghost order: seq<string>)
      modifies `client, `generic, `store, `fw
      ensures State() == TunnelRoutes.AddNode(old(State()), parse, key, node, calls).0
      ensures !Installable(parse, node, calls) ==> r == GaveUp && fw == old(fw)
      ensures r == Redone <==> Installable(parse, node, calls) && Redoes(env)
      ensures r == Redone ==> NodeInstalled(State(), parse, key, node)
      ensures r == Redone && Clean() ==> ChainRebuilt(order)
      ensures Installable(parse, node, calls) && (r == Redone ==> Clean()) ==>
                RulesOf(fw, OUTPUT) == WithJump(RulesOf(old(fw), OUTPUT), env)
    {
      hide AddPair, NodeInstalled, Installable, Redoes, ChainRebuilt, Clean, RulesOf, WithJump;
      AddNodeSucceedsIff(State(), parse, key, node, calls);
      order := [];
      if node.hostIP.None? { return GaveUp, order; }
      var ok := InstallPair(key, node.podCIDR, calls(0), calls(1));
      if !ok { return GaveUp, order; }
      ok := InstallPair(key, node.hostIP.value + "/32", calls(2), calls(3));
      if !ok { return GaveUp, order; }
      r, order := RedoIPTables(env);
    }

    method DelNode(key: string, env: FirewallEnv) returns (r: Redo, ghost order: seq<string>)
      requires forall r <- Recorded(State(), key) :: r.identifier != ""
      modifies `client, `generic, `fw
      ensures State() == TunnelRoutes.DelNode(old(State()), parse, key)
      ensures r == Redone <==> Redoes(env)
      ensures r == Redone && Clean() ==> ChainRebuilt(order)
      ensures (r == Redone ==> Clean()) ==> RulesOf(fw, OUTPUT) == WithJump(RulesOf(old(fw), OUTPUT), env)
    {
      var routes := if key in store then store[key] else [];
      ghost var s := State();
      for i := 0 to |routes|
        invariant State() == UndoAll(s, parse, routes[..i]) && fw == old(fw)
      {
        assert routes[..i + 1][..i] == routes[..i];
        assert routes[i] in Recorded(s, key);
        DeleteClientRoute(routes[i].cidr, routes[i].identifier);
        DeleteRoute(routes[i].cidr);
      }
      assert routes[..|routes|] == routes;
      r, order := RedoIPTables(env);
    }

    /** The controller's reconcile: a key that is not in the cache is a node that went away. */
    method Reconcile(key: string, calls: nat -> bool, env: FirewallEnv) returns (r: Redo, ghost order: seq<string>)
      requires AllRecorded(State(), parse)
      modifies `client, `generic, `store, `fw
      ensures State() ==
              Next(old(State()), parse, if key in nodes then Present(key, nodes[key], calls) else Absent(key))
      ensures AllRecorded(State(), parse)
      ensures r == Redone <==> Redoes(env) && (key in nodes ==> Installable(parse, nodes[key], calls))
      ensures r == Redone && key in nodes ==> NodeInstalled(State(), parse, key, nodes[key])
      ensures r == Redone && Clean() ==>
                ChainRebuilt(order) && RulesOf(fw, OUTPUT) == WithJump(RulesOf(old(fw), OUTPUT), env) &&
                JUMP in RulesOf(fw, OUTPUT)
    {
      ghost var e := if key in nodes then Present(key, nodes[key], calls) else Absent(key);
      NextKeeps(State(), parse, e);
      if key !in nodes {
        r, order := DelNode(key, env);
      } else {
        r, order := AddNode(key, nodes[key], calls, env);
      }
    }

    /** Every key in the store whose node is cached has a host address. */
    ghost predicate Addressed()
      reads this
    {
      forall k :: k in store && k in nodes ==> nodes[k].hostIP.Some?
    }

    /** The firewall can be redone: all commands work, the saved table parses, and all addresses are there. */
    ghost predicate Redoes(env: FirewallEnv)
      reads this
    {
      env.chainOK && env.ruleOK && env.restoreOK && Parses(env.saved) && Addressed()
    }

    /** The tunnel chain holds the redirects of the store's keys, then the one for the service CIDR. */
    ghost predicate ChainRebuilt(order: seq<string>)
      reads this
    {
      && Enumerates(order, store.Keys)
      && Redirects(order, nodes).Some?
      && TUNNELS in fw
      && fw[TUNNELS] == Bodies(Redirects(order, nodes).value + [ServiceRedirect(serviceCIDR)])
    }

    method EnsureChain(ok: bool)
      modifies `fw
      ensures fw == if ok && TUNNELS !in old(fw) then old(fw)[TUNNELS := []] else old(fw)
    {
      if ok && TUNNELS !in fw {
        fw := fw[TUNNELS := []];
      }
    }

    method EnsureJump(ok: bool)
      modifies `fw
      ensures RulesOf(fw, OUTPUT) ==
              RulesOf(old(fw), OUTPUT) + if ok && JUMP !in RulesOf(old(fw), OUTPUT) then [JUMP] else []
      ensures forall chain :: chain != OUTPUT ==>
                (chain in fw <==> chain in old(fw)) && RulesOf(fw, chain) == RulesOf(old(fw), chain)
    {
      var rules := if OUTPUT in fw then fw[OUTPUT] else [];
      if ok {
        fw := fw[OUTPUT := if JUMP in rules then rules else rules + [JUMP]];
      }
    }

    static method WriteLine(buf: string, line: string) returns (r: string)
      ensures r == buf + line + "\n"
    {
      r := buf + line + "\n";
    }

    /** The rules of one key go to the buffer; false if the node has no usable address. */
    method WriteTunnelRedirect(key: string, filterRules: string) returns (ok: bool, r: string)
      ensures ok <==> KeyRedirects(key, nodes).Some?
      ensures ok ==> r == filterRules + Buffer(RuleLines(KeyRedirects(key, nodes).value))
    {
      EmptyRules();
      r := filterRules;
      if key !in nodes { return true, r; }
      if nodes[key].hostIP.None? { return false, r; }
      var host := HostRedirect(key, nodes[key].hostIP.value);
      var pod := PodRedirect(key, nodes[key].podCIDR);
      r := WriteLine(r, RuleLine(host));
      r := WriteLine(r, RuleLine(pod));
      TwoRules(filterRules, host, pod);
      return true, r;
    }

    method RedoIPTables(env: FirewallEnv) returns (r: Redo, ghost order: seq<string>)
      modifies `fw
      ensures r == Redone <==> Redoes(env)
      ensures r == Panicked <==> env.chainOK && env.ruleOK && !Parses(env.saved)
      ensures r == Redone && Clean() ==> ChainRebuilt(order)
      ensures r == Redone && Clean() ==>
                forall chain :: chain != TUNNELS && chain != OUTPUT ==> RulesOf(fw, chain) == RulesOf(old(fw), chain)
      ensures (r == Redone ==> Clean()) ==> RulesOf(fw, OUTPUT) == WithJump(RulesOf(old(fw), OUTPUT), env)
      ensures r != Redone ==> RulesOf(fw, TUNNELS) == RulesOf(old(fw), TUNNELS)
    {
      hide Lines, Chains, RuleLine, Body, TunnelLine, CleanNode, CleanAll, Table, Buffer, RestoreLines, Section;
      order := [];
      EnsureChain(env.chainOK);
      if !env.chainOK { return GaveUp, order; }
      EnsureJump(env.ruleOK);
      if !env.ruleOK { return GaveUp, order; }
      var chainLine := ReadChainLine(env.saved);
      if chainLine.None? { return Panicked, order; }
      var ok, natRules;
      ok, natRules, order := WriteRedirects();
      if !ok { return GaveUp, order; }
      var lines := WriteTable(chainLine.value, natRules, order);
      if !env.restoreOK { return GaveUp, order; }
      RestoreAll(lines, chainLine.value, order);
      r := Redone;
    }

    /** iptables-restore of the table that was written. */
    method RestoreAll(lines: string, ghost chainLine: string, ghost order: seq<string>)
      requires Enumerates(order, store.Keys) && Redirects(order, nodes).Some? && TunnelLine(chainLine)
      requires lines == Buffer(Table(chainLine, Redirects(order, nodes).value + [ServiceRedirect(serviceCIDR)]))
      modifies `fw
      ensures old(Clean()) ==>
                fw == old(fw)[TUNNELS := Bodies(Redirects(order, nodes).value + [ServiceRedirect(serviceCIDR)])]
    {
      hide Lines, Body, TunnelLine, CleanNode, CleanAll, Table, Buffer, RestoreLines, Redirects, Bodies, Clean;
      if Clean() {
        AllClean(order);
        RestoreReplacesChain(fw, chainLine, Redirects(order, nodes).value + [ServiceRedirect(serviceCIDR)]);
      }
      fw := RestoreLines(fw, Lines(lines, 0));
    }

    /** The tunnel chain's line from the saved table, else a new one; None where parsing panics. */
    method ReadChainLine(saved: Option<string>) returns (line: Option<string>)
      ensures line.Some? ==> TunnelLine(line.value)
      ensures line.Some? <==> Parses(saved)
    {
      hide Lines, Chains, TunnelLine, Section;
      MadeLine();
      var existing := map[];
      if saved.Some? {
        FoundLine(saved.value, "*nat");
        assert "*" + "nat" == "*nat";
        var found := GetChainLines("nat", saved.value);
        if found.None? { return None; }
        existing := found.value;
      }
      line := Some(if TUNNELS in existing then existing[TUNNELS] else MakeChainLine(TUNNELS));
    }

    /** The whole text for iptables-restore. */
    method WriteTable(chainLine: string, redirects: string, ghost order: seq<string>) returns (lines: string)
      requires Redirects(order, nodes).Some? && redirects == Buffer(RuleLines(Redirects(order, nodes).value))
      ensures lines == Buffer(Table(chainLine, Redirects(order, nodes).value + [ServiceRedirect(serviceCIDR)]))
    {
      TableText(chainLine, Redirects(order, nodes).value, ServiceRedirect(serviceCIDR));
      hide Buffer, Table, RuleLine, RuleLines, Redirects;
      var natChains := WriteLine("", "*nat");
      natChains := WriteLine(natChains, chainLine);
      var natRules := WriteLine(redirects, RuleLine(ServiceRedirect(serviceCIDR)));
      natRules := WriteLine(natRules, "COMMIT");
      lines := natChains + natRules;
    }

    lemma AllClean(order: seq<string>)
      requires Clean() && Enumerates(order, store.Keys) && Redirects(order, nodes).Some?
      ensures CleanAll(Redirects(order, nodes).value + [ServiceRedirect(serviceCIDR)])
    {
      hide Redirects, CleanNode, CleanRedirect, ServiceRedirect;
      RedirectsClean(order, nodes);
      ServiceClean();
    }

    lemma ServiceClean()
      requires Clean()
      ensures CleanRedirect(ServiceRedirect(serviceCIDR))
    {
    }

    /** The loop over the store, in whatever order its keys come. */
    method WriteRedirects() returns (ok: bool, natRules: string, ghost order: seq<string>)
      ensures ok <==> Addressed()
      ensures ok ==> Enumerates(order, store.Keys) && Redirects(order, nodes).Some?
      ensures ok ==> natRules == Buffer(RuleLines(Redirects(order, nodes).value))
    {
      hide RuleLine, Buffer, KeyRedirects;
      EmptyRules();
      order, natRules := [], "";
      var todo := store.Keys;
      while todo != {}
        invariant todo <= store.Keys
        invariant Enumerates(order, store.Keys - todo)
        invariant Redirects(order, nodes).Some? && natRules == Buffer(RuleLines(Redirects(order, nodes).value))
        invariant forall k :: k in store && k in nodes && k !in todo ==> nodes[k].hostIP.Some?
        decreases |todo|
      {
        var key :| key in todo;
        KeyOK(key, nodes);
        ok, natRules := WriteTunnelRedirect(key, natRules);
        if !ok { return; }
        Appended(order, key);
        todo := todo - {key};
        order := order + [key];
      }
      ok := true;
    }

    lemma KeyOK(key: string, nodes: map<string, Node>)
      ensures KeyRedirects(key, nodes).Some? <==> (key in nodes ==> nodes[key].hostIP.Some?)
    {
    }

    lemma Appended(order: seq<string>, key: string)
      requires Redirects(order, nodes).Some? && KeyRedirects(key, nodes).Some?
      ensures Redirects(order + [key], nodes) == Some(Redirects(order, nodes).value + KeyRedirects(key, nodes).value)
      ensures Buffer(RuleLines(Redirects(order + [key], nodes).value)) ==
              Buffer(RuleLines(Redirects(order, nodes).value)) + Buffer(RuleLines(KeyRedirects(key, nodes).value))
    {
      hide RuleLine, Buffer, KeyRedirects;
      assert (order + [key])[..|order|] == order;
      var a, b := Redirects(order, nodes).value, KeyRedirects(key, nodes).value;
      assert RuleLines(a + b) == RuleLines(a) + RuleLines(b);
      BufferAppend(RuleLines(a), RuleLines(b));
    }

    static lemma EmptyRules()
      ensures Buffer(RuleLines([])) == ""
    {
      assert RuleLines([]) == [];
    }

    static lemma OneLine(line: string)
      ensures Buffer([line]) == line + "\n"
    {
      assert [line][..0] == [];
    }

    static lemma TwoRules(buf: string, a: Redirect, b: Redirect)
      ensures buf + RuleLine(a) + "\n" + RuleLine(b) + "\n" == buf + Buffer(RuleLines([a, b]))
    {
      hide RuleLine;
      assert RuleLines([a, b]) == [RuleLine(a)] + [RuleLine(b)];
      BufferAppend([RuleLine(a)], [RuleLine(b)]);
      OneLine(RuleLine(a));
      OneLine(RuleLine(b));
    }

    static lemma TableText(chainLine: string, rs: seq<Redirect>, last: Redirect)
      ensures Buffer(Table(chainLine, rs + [last])) ==
              ("" + "*nat" + "\n" + chainLine + "\n") +
              (Buffer(RuleLines(rs)) + RuleLine(last) + "\n" + "COMMIT" + "\n")
    {
      hide RuleLine, Buffer;
      var head, rules := ["*nat"] + [chainLine], RuleLines(rs);
      assert Table(chainLine, rs + [last]) == head + (rules + [RuleLine(last)] + ["COMMIT"]);
      BufferAppend(head, rules + [RuleLine(last)] + ["COMMIT"]);
      BufferAppend(["*nat"], [chainLine]);
      BufferAppend(rules + [RuleLine(last)], ["COMMIT"]);
      BufferAppend(rules, [RuleLine(last)]);
      OneLine("*nat");
      OneLine(chainLine);
      OneLine(RuleLine(last));
      OneLine("COMMIT");
    }
  }
}
