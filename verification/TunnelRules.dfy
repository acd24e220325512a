/**
 The firewall chain of the wormhole server: the table text it writes, what iptables-restore
 makes of it, and what the controller reads back from it.
 */
module TunnelRules {
  import opened Common
  import opened SaveRestore
  import opened TunnelRoutes

  const TUNNELS := "KUBERNIKUS-TUNNELS"
  const HIJACK_PORT := "9191"

  function Join(words: seq<string>): string {
    if words == [] then "" else if |words| == 1 then words[0] else words[0] + " " + Join(words[1..])
  }

  /** One redirect of TCP traffic into the tunnel. */
  datatype Redirect = Redirect(comment: string, dst: string)

  function Body(r: Redirect): string {
    Join(["-m", "comment", "--comment", r.comment, "--dst", r.dst, "-p", "tcp", "-j", "REDIRECT", "--to-ports",
      HIJACK_PORT])
  }

  function RuleLine(r: Redirect): string {
    "-A " + TUNNELS + " " + Body(r)
  }

  function HostRedirect(key: string, hostIP: string): Redirect {
    Redirect("\"node ip tunnel redirect for " + key + "\"", hostIP)
  }

  function PodRedirect(key: string, podCIDR: string): Redirect {
    Redirect("\"pod cidr tunnel redirect for " + key + "\"", podCIDR)
  }

  function ServiceRedirect(serviceCIDR: string): Redirect {
    Redirect("\"cluster service CIDR tunnel redirect\"", serviceCIDR)
  }

  /** A key's two redirects, if its node is still cached; None if the node has no usable address. */
  function KeyRedirects(key: string, nodes: map<string, Node>): Option<seq<Redirect>> {
    if key !in nodes then Some([])
    else if nodes[key].hostIP.None? then None
    else Some([HostRedirect(key, nodes[key].hostIP.value), PodRedirect(key, nodes[key].podCIDR)])
  }

  /** The redirects of keys in this order. */
  function Redirects(order: seq<string>, nodes: map<string, Node>): Option<seq<Redirect>> {
    if order == [] then Some([])
    else
      var before := Redirects(order[..|order| - 1], nodes);
      var last := KeyRedirects(order[|order| - 1], nodes);
      if before.None? || last.None? then None else Some(before.value + last.value)
  }

  function Bodies(rs: seq<Redirect>): seq<string> {
    seq(|rs|, i requires 0 <= i < |rs| => Body(rs[i]))
  }

  function RuleLines(rs: seq<Redirect>): seq<string> {
    seq(|rs|, i requires 0 <= i < |rs| => RuleLine(rs[i]))
  }

  /** The table text, line by line. */
  function Table(chainLine: string, rs: seq<Redirect>): seq<string> {
    ["*nat", chainLine] + RuleLines(rs) + ["COMMIT"]
  }

  // ----- iptables-restore --------------------------------------------------------------------------------

  type Firewall = map<string, seq<string>>

  function RulesOf(fw: Firewall, chain: string): seq<string> {
    if chain in fw then fw[chain] else []
  }

  /** Declaring a chain flushes it, "-A" appends to it. */
  function RestoreLine(fw: Firewall, line: string): Firewall {
    if IsChainLine(line) && ' ' in line then fw[ChainOf(line) := []]
    else if "-A " <= line && ' ' in line[3..] then
      var rest := line[3..];
      var i := IndexOfSpace(rest);
      fw[rest[..i] := RulesOf(fw, rest[..i]) + [rest[i + 1..]]]
    else fw
  }

  function RestoreLines(fw: Firewall, lines: seq<string>): Firewall {
    if lines == [] then fw else RestoreLine(RestoreLines(fw, lines[..|lines| - 1]), lines[|lines| - 1])
  }

  // ----- The lines written ------------------------------------------------------------------------------

  predicate CleanRedirect(r: Redirect) {
    '\n' !in r.comment && '\n' !in r.dst
  }

  /** A joined text ends like its last word and has no newline that no word has. */
  lemma {:induction false} JoinText(words: seq<string>)
    requires words != [] && words[|words| - 1] != ""
    ensures Newlineless(words) ==> '\n' !in Join(words)
    ensures Join(words) != [] && Join(words)[|Join(words)| - 1] == words[|words| - 1][|words[|words| - 1]| - 1]
    decreases |words|
  {
    if |words| > 1 {
      JoinText(words[1..]);
      if Newlineless(words) { RestNewlineless(words); }
    }
  }

  lemma BodyText(r: Redirect)
    ensures Body(r) != [] && Body(r)[|Body(r)| - 1] == '1'
    ensures CleanRedirect(r) ==> '\n' !in Body(r)
  {
    hide Join;
    var words := ["-m", "comment", "--comment", r.comment, "--dst", r.dst, "-p", "tcp", "-j", "REDIRECT",
      "--to-ports", HIJACK_PORT];
    JoinText(words);
  }

  lemma TrimNoop(s: string)
    requires s != "" && s[0] != ' ' && s[|s| - 1] != ' '
    ensures Trim(s) == s
  {
    TrimIs(s, 0, 0, |s|, |s|);
    assert s[0..|s|] == s;
  }

  lemma {:induction false} IndexOfSpaceIs(s: string, i: nat)
    requires i < |s| && s[i] == ' ' && forall k :: 0 <= k < i ==> s[k] != ' '
    ensures ' ' in s && IndexOfSpace(s) == i
    decreases i
  {
    if i > 0 { IndexOfSpaceIs(s[1..], i - 1); }
  }

  lemma TunnelsWord()
    ensures |TUNNELS| == 18 && ' ' !in TUNNELS && '\n' !in TUNNELS
  {
  }

  lemma RuleLineText(r: Redirect)
    ensures "-A " <= RuleLine(r) && Trim(RuleLine(r)) == RuleLine(r)
    ensures CleanRedirect(r) ==> '\n' !in RuleLine(r)
  {
    BodyText(r);
    TunnelsWord();
    hide Body, Trim;
    var line := RuleLine(r);
    assert line == "-A " + (TUNNELS + " " + Body(r));
    assert line[|line| - 1] == Body(r)[|Body(r)| - 1];
    TrimNoop(line);
  }

  lemma RestoreRule(fw: Firewall, r: Redirect)
    ensures RestoreLine(fw, RuleLine(r)) == fw[TUNNELS := RulesOf(fw, TUNNELS) + [Body(r)]]
  {
    TunnelsWord();
    hide Body;
    var line := RuleLine(r);
    var rest := TUNNELS + " " + Body(r);
    assert line == "-A " + rest;
    assert line[3..] == rest;
    assert line[0] == '-';
    assert forall k :: 0 <= k < 18 ==> rest[k] == TUNNELS[k];
    IndexOfSpaceIs(rest, 18);
    assert rest[..18] == TUNNELS && rest[19..] == Body(r);
  }

  // ----- The chain line ------------------------------------------------------------------------------------

  /** A line that declares the tunnel chain, as read or made by the controller. */
  predicate TunnelLine(line: string) {
    IsChainLine(line) && ' ' in line && ChainOf(line) == TUNNELS && '\n' !in line && Trim(line) == line
  }

  lemma MadeLine()
    ensures TunnelLine(MakeChainLine(TUNNELS))
  {
    TunnelsWord();
    var line := MakeChainLine(TUNNELS);
    assert line == ":" + TUNNELS + " - [0:0]";
    assert |line| == 27 && line[0] == ':' && line[26] == ']' && line[19] == ' ';
    assert forall k :: 0 <= k < 18 ==> line[k + 1] == TUNNELS[k];
    assert forall k :: 0 < k < 19 ==> line[k] == TUNNELS[k - 1];
    IndexOfSpaceIs(line, 19);
    assert line[1..19] == TUNNELS;
    TrimNoop(line);
  }

  /** Every line that ReadLine returns is trimmed and within one line. */
  lemma {:induction false} LinesClean(b: string, i: nat)
    requires i <= |b|
    ensures forall line <- Lines(b, i) :: '\n' !in line && Trim(line) == line
    decreases |b| - i
  {
    if i < |b| {
      LineClean(b, i);
      LineAtTrims(b, i);
      LinesClean(b, LineAt(b, i).1);
      hide Trim, LineAt;
    }
  }

  lemma LineClean(b: string, i: nat)
    requires i < |b|
    ensures '\n' !in LineAt(b, i).0 && Trim(LineAt(b, i).0) == LineAt(b, i).0
  {
    var end := LineEnd(b, i);
    var text := if end < |b| then b[i..end] else b[i..];
    assert '\n' !in text;
    TrimClean(text);
    UnterminatedClean(text);
  }

  lemma {:induction false} TrimParts(s: string)
    ensures '\n' !in s ==> '\n' !in TrimLeft(s)
    ensures '\n' !in s ==> '\n' !in TrimRight(s)
    decreases |s|
  {
    if s != [] {
      TrimParts(s[1..]);
      TrimParts(s[..|s| - 1]);
    }
  }

  lemma TrimClean(s: string)
    requires '\n' !in s
    ensures '\n' !in Trim(s) && Trim(Trim(s)) == Trim(s)
  {
    var left := TrimLeft(s);
    TrimParts(s);
    TrimParts(left);
    TrimLeftFirst(s);
    TrimRightLast(left);
    if Trim(s) != "" {
      assert Trim(s)[0] == left[0];
      TrimNoop(Trim(s));
    }
  }

  lemma UnterminatedClean(s: string)
    requires '\n' !in s
    ensures '\n' !in Unterminated(s) && Trim(Unterminated(s)) == Unterminated(s)
  {
    var left := TrimLeft(s);
    TrimParts(s);
    TrimLeftFirst(s);
    if |left| > 1 && left[|left| - 1] != ' ' {
      if left[|left| - 2] == ' ' {
        var head := left[..|left| - 1];
        TrimParts(head);
        TrimRightLast(head);
        assert TrimRight(head)[0] == left[0];
        TrimNoop(TrimRight(head));
      } else {
        TrimNoop(left);
      }
    }
  }

  lemma {:induction false} SectionPart(lines: seq<string>, prefix: string)
    ensures forall line <- Section(lines, prefix) :: line in lines
    decreases |lines|
  {
    if lines != [] { SectionPart(lines[1..], prefix); }
  }

  lemma {:induction false} TablePart(lines: seq<string>)
    ensures forall line <- TableLines(lines) :: line in lines
    decreases |lines|
  {
    if lines != [] { TablePart(lines[1..]); }
  }

  /** A tunnel chain found in saved text comes with a proper chain line. */
  lemma FoundLine(save: string, prefix: string)
    ensures var found := Chains(Section(Lines(save, 0), prefix), map[]);
            found.Some? && TUNNELS in found.value ==> TunnelLine(found.value[TUNNELS])
  {
    hide Trim, Lines, Chains, Section, TableLines;
    var lines := Section(Lines(save, 0), prefix);
    var found := Chains(lines, map[]);
    if found.Some? && TUNNELS in found.value {
      ChainsMeaning(lines, map[]);
      LinesClean(save, 0);
      SectionPart(Lines(save, 0), prefix);
      TablePart(lines);
    }
  }

  // ----- The whole table ------------------------------------------------------------------------------------

  ghost predicate CleanAll(rs: seq<Redirect>) {
    forall r <- rs :: CleanRedirect(r)
  }

  /** The written table reads back line by line. */
  lemma TableReadsBack(chainLine: string, rs: seq<Redirect>)
    requires TunnelLine(chainLine) && CleanAll(rs)
    ensures Lines(Buffer(Table(chainLine, rs)), 0) == Table(chainLine, rs)
  {
    hide Trim, RuleLine, Buffer, Lines, ChainOf, CleanRedirect;
    var table := Table(chainLine, rs);
    forall i | 0 <= i < |table| ensures '\n' !in table[i] && Trim(table[i]) == table[i] {
      if 2 <= i < |table| - 1 {
        assert table[i] == RuleLine(rs[i - 2]);
        assert rs[i - 2] in rs;
        RuleLineText(rs[i - 2]);
      } else if i == 0 {
        TrimNoop("*nat");
      } else if i == |table| - 1 {
        TrimNoop("COMMIT");
      }
    }
    LinesOfBuffer(Buffer(table), 0, table);
    assert Trimmed(table) == table;
  }

  lemma {:induction false} RulesAreNoChains(rs: seq<Redirect>, i: nat, found: map<string, string>)
    requires i <= |rs|
    ensures Chains(RuleLines(rs)[i..] + ["COMMIT"], found) == Some(found)
    decreases |rs| - i
  {
    hide RuleLine;
    if i < |rs| {
      RuleLineText(rs[i]);
      var lines := RuleLines(rs)[i..] + ["COMMIT"];
      assert lines[0] == RuleLine(rs[i]) && lines[0][0] == '-';
      assert lines[1..] == RuleLines(rs)[i + 1..] + ["COMMIT"];
      RulesAreNoChains(rs, i + 1, found);
    }
  }

  /** Parsing the written table finds exactly the tunnel chain, with the chain line written. */
  lemma ChainLineIsFixedPoint(chainLine: string, rs: seq<Redirect>)
    requires TunnelLine(chainLine) && CleanAll(rs)
    ensures Chains(Section(Lines(Buffer(Table(chainLine, rs)), 0), "*nat"), map[]) == Some(map[TUNNELS := chainLine])
  {
    TableReadsBack(chainLine, rs);
    RulesAreNoChains(rs, 0, map[TUNNELS := chainLine]);
    SectionOfTable(chainLine, rs);
    ChainsFirst(chainLine, RuleLines(rs)[0..] + ["COMMIT"]);
    hide *;
  }

  lemma ChainsFirst(chainLine: string, rest: seq<string>)
    requires TunnelLine(chainLine)
    ensures Chains([chainLine] + rest, map[]) == Chains(rest, map[TUNNELS := chainLine])
  {
    hide Trim, ChainOf;
    assert ([chainLine] + rest)[1..] == rest;
    assert chainLine[0] == ':';
  }

  lemma SectionOfTable(chainLine: string, rs: seq<Redirect>)
    ensures Section(Table(chainLine, rs), "*nat") == [chainLine] + (RuleLines(rs)[0..] + ["COMMIT"])
  {
    hide RuleLines;
    var table := Table(chainLine, rs);
    assert table[0] == "*nat";
    assert table[1..] == [chainLine] + (RuleLines(rs)[0..] + ["COMMIT"]);
  }

  lemma RestoreSnoc(fw: Firewall, lines: seq<string>, line: string)
    ensures RestoreLines(fw, lines + [line]) == RestoreLine(RestoreLines(fw, lines), line)
  {
    assert (lines + [line])[..|lines + [line]| - 1] == lines;
  }

  lemma {:induction false} RestoreRules(fw: Firewall, start: seq<string>, rs: seq<Redirect>)
    requires RestoreLines(fw, start) == fw[TUNNELS := []]
    ensures RestoreLines(fw, start + RuleLines(rs)) == fw[TUNNELS := Bodies(rs)]
    decreases |rs|
  {
    hide Body, RuleLine, RestoreLine;
    if rs == [] {
      assert start + RuleLines(rs) == start;
    } else {
      var n := |rs| - 1;
      RestoreRules(fw, start, rs[..n]);
      assert start + RuleLines(rs) == start + RuleLines(rs[..n]) + [RuleLine(rs[n])];
      RestoreSnoc(fw, start + RuleLines(rs[..n]), RuleLine(rs[n]));
      RestoreRule(fw[TUNNELS := Bodies(rs[..n])], rs[n]);
      assert Bodies(rs) == Bodies(rs[..n]) + [Body(rs[n])];
    }
  }

  /** Restoring the written table replaces the tunnel chain by the redirects and touches no other chain. */
  lemma RestoreReplacesChain(fw: Firewall, chainLine: string, rs: seq<Redirect>)
    requires TunnelLine(chainLine) && CleanAll(rs)
    ensures RestoreLines(fw, Lines(Buffer(Table(chainLine, rs)), 0)) == fw[TUNNELS := Bodies(rs)]
  {
    TableReadsBack(chainLine, rs);
    RestoreSnoc(fw, [], "*nat");
    RestoreSnoc(fw, ["*nat"], chainLine);
    assert [] + ["*nat"] == ["*nat"] && ["*nat"] + [chainLine] == ["*nat", chainLine];
    RestoreRules(fw, ["*nat", chainLine], rs);
    RestoreSnoc(fw, ["*nat", chainLine] + RuleLines(rs), "COMMIT");
  }

  // ----- Which redirects ------------------------------------------------------------------------------------

  ghost predicate Enumerates(order: seq<string>, keys: set<string>) {
    (forall k :: k in order <==> k in keys) && Distinct(order)
  }

  ghost predicate Distinct(keys: seq<string>) {
    forall i, j :: 0 <= i < j < |keys| ==> keys[i] != keys[j]
  }

  /** The keys of an order whose nodes are still cached. */
  function Live(order: seq<string>, nodes: map<string, Node>): seq<string> {
    if order == [] then []
    else
      Live(order[..|order| - 1], nodes) +
      if order[|order| - 1] in nodes then [order[|order| - 1]] else []
  }

  lemma {:induction false} LiveKeys(order: seq<string>, nodes: map<string, Node>)
    requires Distinct(order)
    ensures forall k :: k in Live(order, nodes) <==> k in order && k in nodes
    ensures Distinct(Live(order, nodes))
    decreases |order|
  {
    if order != [] {
      var n := |order| - 1;
      LiveKeys(order[..n], nodes);
      assert order == order[..n] + [order[n]];
      assert forall k :: k in order[..n] ==> k != order[n];
      assert order[n] !in Live(order[..n], nodes);
    }
  }

  /** Each key with a cached node has its host redirect and its pod redirect at one place, once. */
  lemma {:induction false} RedirectsPerKey(order: seq<string>, nodes: map<string, Node>)
    requires Redirects(order, nodes).Some?
    ensures var rs := Redirects(order, nodes).value;
            var live := Live(order, nodes);
            && |rs| == 2 * |live|
            && forall i :: 0 <= i < |live| ==>
                 live[i] in nodes && nodes[live[i]].hostIP.Some? &&
                 rs[2 * i] == HostRedirect(live[i], nodes[live[i]].hostIP.value) &&
                 rs[2 * i + 1] == PodRedirect(live[i], nodes[live[i]].podCIDR)
    decreases |order|
  {
    hide HostRedirect, PodRedirect;
    if order != [] {
      RedirectsPerKey(order[..|order| - 1], nodes);
    }
  }

  /** The chain does not depend on the order in which the store's keys come, up to the order of rules. */
  lemma {:induction false} OrderIrrelevant(a: seq<string>, b: seq<string>, nodes: map<string, Node>)
    requires multiset(a) == multiset(b) && Redirects(a, nodes).Some?
    ensures Redirects(b, nodes).Some?
    ensures multiset(Redirects(a, nodes).value) == multiset(Redirects(b, nodes).value)
    decreases |a|
  {
    hide KeyRedirects;
    if a == [] {
      assert |multiset(b)| == 0;
    } else {
      var n := |a| - 1;
      var j := DropLast(a, b);
      OrderIrrelevant(a[..n], b[..j] + b[j + 1..], nodes);
      RedirectsInsert(b[..j], a[n], b[j + 1..], nodes);
      assert b[..j] + [a[n]] + b[j + 1..] == b;
    }
  }

  lemma {:induction false} RedirectsAppend(a: seq<string>, b: seq<string>, nodes: map<string, Node>)
    ensures Redirects(a + b, nodes).Some? <==> Redirects(a, nodes).Some? && Redirects(b, nodes).Some?
    ensures Redirects(a + b, nodes).Some? ==>
              Redirects(a + b, nodes).value == Redirects(a, nodes).value + Redirects(b, nodes).value
    decreases |b|
  {
    hide KeyRedirects;
    if b == [] {
      assert a + b == a;
    } else {
      assert (a + b)[..|a + b| - 1] == a + b[..|b| - 1];
      RedirectsAppend(a, b[..|b| - 1], nodes);
    }
  }

  lemma RedirectsOne(key: string, nodes: map<string, Node>)
    ensures Redirects([key], nodes) == KeyRedirects(key, nodes)
  {
    assert [key][..0] == [];
    var one := KeyRedirects(key, nodes);
    if one.Some? { assert [] + one.value == one.value; }
  }

  lemma RedirectsInsert(a: seq<string>, key: string, b: seq<string>, nodes: map<string, Node>)
    requires Redirects(a + b, nodes).Some? && KeyRedirects(key, nodes).Some?
    ensures Redirects(a + [key] + b, nodes).Some?
    ensures multiset(Redirects(a + [key] + b, nodes).value) ==
            multiset(Redirects(a + b, nodes).value) + multiset(KeyRedirects(key, nodes).value)
  {
    hide KeyRedirects, Redirects;
    RedirectsAppend(a, b, nodes);
    RedirectsAppend(a + [key], b, nodes);
    RedirectsAppend(a, [key], nodes);
    RedirectsOne(key, nodes);
  }

  // ----- Exactly once ----------------------------------------------------------------------------------------

  /** The line is the space-joined words that the source passes to writeLine. */
  lemma RuleLineJoins(r: Redirect)
    ensures RuleLine(r) == Join(["-A", TUNNELS, "-m", "comment", "--comment", r.comment, "--dst", r.dst,
                                 "-p", "tcp", "-j", "REDIRECT", "--to-ports", HIJACK_PORT])
  {
    var body := ["-m", "comment", "--comment", r.comment, "--dst", r.dst, "-p", "tcp", "-j", "REDIRECT", "--to-ports",
      HIJACK_PORT];
    JoinTwo("-A", TUNNELS, body);
    assert ["-A", TUNNELS] + body ==
           ["-A", TUNNELS, "-m", "comment", "--comment", r.comment, "--dst", r.dst, "-p", "tcp", "-j", "REDIRECT",
             "--to-ports", HIJACK_PORT];
    hide Join;
  }

  /** The words of the last rule. */
  lemma ServiceRuleText(serviceCIDR: string)
    ensures RuleLine(ServiceRedirect(serviceCIDR)) ==
            Join(["-A", "KUBERNIKUS-TUNNELS", "-m", "comment", "--comment",
                  "\"cluster service CIDR tunnel redirect\"", "--dst", serviceCIDR,
                  "-p", "tcp", "-j", "REDIRECT", "--to-ports", "9191"])
  {
    hide Join, RuleLine;
    RuleLineJoins(ServiceRedirect(serviceCIDR));
  }

  /** The words written for a key's node: both its addresses go to the tunnel's port, in the tunnel chain. */
  lemma KeyRulesText(key: string, node: Node)
    requires node.hostIP.Some?
    ensures var rs := KeyRedirects(key, map[key := node]);
            && rs.Some? && |rs.value| == 2
            && RuleLine(rs.value[0]) ==
               Join(["-A", "KUBERNIKUS-TUNNELS", "-m", "comment", "--comment",
                     "\"node ip tunnel redirect for " + key + "\"", "--dst", node.hostIP.value,
                     "-p", "tcp", "-j", "REDIRECT", "--to-ports", "9191"])
            && RuleLine(rs.value[1]) ==
               Join(["-A", "KUBERNIKUS-TUNNELS", "-m", "comment", "--comment",
                     "\"pod cidr tunnel redirect for " + key + "\"", "--dst", node.podCIDR,
                     "-p", "tcp", "-j", "REDIRECT", "--to-ports", "9191"])
  {
    hide Join, RuleLine;
    RuleLineJoins(HostRedirect(key, node.hostIP.value));
    RuleLineJoins(PodRedirect(key, node.podCIDR));
  }

  lemma JoinTwo(a: string, b: string, rest: seq<string>)
    requires rest != []
    ensures Join([a, b] + rest) == a + " " + b + " " + Join(rest)
  {
    var words := [a, b] + rest;
    assert words[1..] == [b] + rest && words[1..][1..] == rest;
    assert Join(words[1..]) == b + " " + Join(rest);
  }

  lemma QuotedInjective(prefix: string, a: string, b: string)
    requires prefix + a + "\"" == prefix + b + "\""
    ensures a == b
  {
    var s, t := prefix + a + "\"", prefix + b + "\"";
    assert |s| == |t|;
    assert s[|prefix|..|s| - 1] == a && t[|prefix|..|t| - 1] == b;
  }

  /** Redirects of different keys or kinds differ in their comments. */
  lemma RedirectsDiffer(a: string, x: string, b: string, y: string)
    ensures a != b ==> HostRedirect(a, x) != HostRedirect(b, y) && PodRedirect(a, x) != PodRedirect(b, y)
    ensures HostRedirect(a, x) != PodRedirect(b, y)
    ensures HostRedirect(a, x) != ServiceRedirect(y) && PodRedirect(a, x) != ServiceRedirect(y)
  {
    if HostRedirect(a, x) == HostRedirect(b, y) { QuotedInjective("\"node ip tunnel redirect for ", a, b); }
    if PodRedirect(a, x) == PodRedirect(b, y) { QuotedInjective("\"pod cidr tunnel redirect for ", a, b); }
    assert HostRedirect(a, x).comment[1] == 'n';
    assert PodRedirect(b, y).comment[1] == 'p' && PodRedirect(a, x).comment[1] == 'p';
    assert ServiceRedirect(y).comment[1] == 'c';
  }

  lemma {:induction false} Occurrences(order: seq<string>, nodes: map<string, Node>, key: string)
    requires Distinct(order) && Redirects(order, nodes).Some? && key in nodes && nodes[key].hostIP.Some?
    ensures var rs := multiset(Redirects(order, nodes).value);
            && rs[HostRedirect(key, nodes[key].hostIP.value)] == (if key in order then 1 else 0)
            && rs[PodRedirect(key, nodes[key].podCIDR)] == (if key in order then 1 else 0)
    decreases |order|
  {
    if order != [] {
      var n := |order| - 1;
      assert order == order[..n] + [order[n]];
      Occurrences(order[..n], nodes, key);
      KeyOccurrences(order[n], nodes, key);
      hide KeyRedirects, HostRedirect, PodRedirect;
    }
  }

  lemma KeyOccurrences(k: string, nodes: map<string, Node>, key: string)
    requires KeyRedirects(k, nodes).Some? && key in nodes && nodes[key].hostIP.Some?
    ensures var rs := multiset(KeyRedirects(k, nodes).value);
            && rs[HostRedirect(key, nodes[key].hostIP.value)] == (if key == k then 1 else 0)
            && rs[PodRedirect(key, nodes[key].podCIDR)] == (if key == k then 1 else 0)
  {
    if k in nodes {
      RedirectsDiffer(key, nodes[key].hostIP.value, k, nodes[k].hostIP.value);
      RedirectsDiffer(key, nodes[key].podCIDR, k, nodes[k].podCIDR);
      RedirectsDiffer(k, nodes[k].hostIP.value, key, nodes[key].podCIDR);
      RedirectsDiffer(key, nodes[key].hostIP.value, k, nodes[k].podCIDR);
      hide HostRedirect, PodRedirect;
    }
  }

  /**
   Whatever the order of the store's keys: every key whose node is cached has exactly one host
   redirect and exactly one pod redirect, and there is nothing but these.
   */
  lemma ExactlyOncePerKey(order: seq<string>, keys: set<string>, nodes: map<string, Node>, key: string)
    requires Enumerates(order, keys) && Redirects(order, nodes).Some?
    ensures key in keys && key in nodes ==>
              && nodes[key].hostIP.Some?
              && multiset(Redirects(order, nodes).value)[HostRedirect(key, nodes[key].hostIP.value)] == 1
              && multiset(Redirects(order, nodes).value)[PodRedirect(key, nodes[key].podCIDR)] == 1
    ensures |Redirects(order, nodes).value| == 2 * |keys * nodes.Keys|
  {
    LiveKeys(order, nodes);
    RedirectsPerKey(order, nodes);
    var live := Live(order, nodes);
    DistinctSize(live, keys * nodes.Keys);
    hide HostRedirect, PodRedirect, Redirects, Live;
    if key in keys && key in nodes {
      assert key in live;
      Occurrences(order, nodes, key);
    }
  }

  lemma {:induction false} DistinctSize(s: seq<string>, keys: set<string>)
    requires Distinct(s) && forall k :: k in s <==> k in keys
    ensures |s| == |keys|
    decreases |s|
  {
    if s == [] {
      assert keys == {};
    } else {
      var n := |s| - 1;
      assert s == s[..n] + [s[n]];
      DistinctSize(s[..n], keys - {s[n]});
    }
  }
}
