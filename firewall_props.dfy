/**
 * What the phases of the firewall initialiser guarantee: a run stops at the
 * first error and nothing after it happens; `process_services` and
 * `process_domains` grow the ipset by a prefix of what they planned, in
 * order; and a run of `main` that succeeds leaves the three built-in chains
 * dropping by default, the filter table holding exactly the foundation
 * rules, the host rules and the final rules in that order (so the REJECT is
 * the last OUTPUT rule), and the ipset holding every planned entry.
 */
module FirewallProps {
  import opened Results
  import opened Text
  import opened AddrText
  import opened FirewallText
  import opened Resolve
  import opened FirewallSpec

  // ---------------------------------------------------------------------
  // Fail-fast
  // ---------------------------------------------------------------------

  /** Running two lists of steps is running the first and, only if it
      raised nothing, the second from the state the first left. */
  lemma {:induction false} ExecAppend(host: Host, t: Tables, a: seq<Step>, b: seq<Step>)
    ensures Exec(host, t, a + b) ==
            (var r := Exec(host, t, a); if r.outcome.Pass? then Exec(host, r.tables, b) else r)
    decreases |a|
  {
    if a == [] {
      assert a + b == b;
    } else {
      assert (a + b)[0] == a[0];
      assert (a + b)[1..] == a[1..] + b;
      match a[0]
      case Checked(c) =>
        if host.accepts(Argv(c)) {
          ExecAppend(host, Apply(t, c), a[1..], b);
        }
      case Unchecked(c) =>
        ExecAppend(host, if host.accepts(Argv(c)) then Apply(t, c) else t, a[1..], b);
      case Abort(e) =>
    }
  }

  /** Fail-closed: once a step raises, nothing that follows runs. */
  lemma FailClosed(host: Host, t: Tables, a: seq<Step>, b: seq<Step>)
    requires Exec(host, t, a).outcome.Fail?
    ensures Exec(host, t, a + b) == Exec(host, t, a)
  {
    ExecAppend(host, t, a, b);
  }

  /** A run that raised nothing ran every part of it without raising. */
  lemma PassSplit(host: Host, t: Tables, a: seq<Step>, b: seq<Step>)
    requires Exec(host, t, a + b).outcome.Pass?
    ensures Exec(host, t, a).outcome.Pass?
    ensures Exec(host, t, a + b) == Exec(host, Exec(host, t, a).tables, b)
  {
    ExecAppend(host, t, a, b);
  }

  // ---------------------------------------------------------------------
  // Additions to the ipset
  // ---------------------------------------------------------------------

  /** Steps that only add to the ipset or raise. */
  predicate AddsOnly(steps: seq<Step>) {
    forall i :: 0 <= i < |steps| ==> steps[i].Abort? || (steps[i].Checked? && steps[i].cmd.IpsetAdd?)
  }

  /** The entries the steps would add, in order. */
  function Planned(steps: seq<Step>): seq<string> {
    if steps == [] then []
    else
      (if steps[0].Checked? && steps[0].cmd.IpsetAdd? then [steps[0].cmd.entry] else [])
      + Planned(steps[1..])
  }

  lemma {:induction false} PlannedAppend(a: seq<Step>, b: seq<Step>)
    ensures Planned(a + b) == Planned(a) + Planned(b)
    decreases |a|
  {
    if a == [] {
      assert a + b == b;
    } else {
      assert (a + b)[0] == a[0];
      assert (a + b)[1..] == a[1..] + b;
      PlannedAppend(a[1..], b);
    }
  }

  lemma {:induction false} PlannedAdds(entries: seq<string>)
    ensures Planned(AddSteps(entries)) == entries
    decreases |entries|
  {
    if entries != [] {
      assert AddSteps(entries)[1..] == AddSteps(entries[1..]);
      PlannedAdds(entries[1..]);
    }
  }

  /** Steps that only add or raise grow the ipset by a prefix of the
      planned entries and change nothing else; all of them when none
      raised. */
  lemma {:induction false} AddsRun(host: Host, t: Tables, steps: seq<Step>)
    requires AddsOnly(steps) && t.ipset.Some?
    ensures Accepted(host, steps) <= |Planned(steps)|
    ensures Exec(host, t, steps).tables
            == t.(ipset := Some(t.ipset.value + Planned(steps)[..Accepted(host, steps)]))
    ensures Exec(host, t, steps).outcome.Pass? ==> Accepted(host, steps) == |Planned(steps)|
    decreases |steps|
  {
    var v := t.ipset.value;
    if steps == [] || steps[0].Abort? || !host.accepts(Argv(steps[0].cmd)) {
      AddsStop(host, t, steps);
      assert v + Planned(steps)[..0] == v;
    } else {
      var e := steps[0].cmd.entry;
      var t1 := t.(ipset := Some(v + [e]));
      var rest := Planned(steps[1..]);
      var k := Accepted(host, steps[1..]);
      AddsStep(host, t, steps);
      AddsRun(host, t1, steps[1..]);
      assert Planned(steps)[..k + 1] == [e] + rest[..k];
      assert v + [e] + rest[..k] == v + Planned(steps)[..k + 1];
    }
  }

  /** How many leading steps of a run of additions the host accepted. */
  function Accepted(host: Host, steps: seq<Step>): nat {
    if steps == [] || steps[0].Abort? || !host.accepts(Argv(steps[0].cmd)) then 0
    else 1 + Accepted(host, steps[1..])
  }

  /** A run of additions that stops at once changes nothing. */
  lemma AddsStop(host: Host, t: Tables, steps: seq<Step>)
    requires AddsOnly(steps)
    requires steps == [] || steps[0].Abort? || !host.accepts(Argv(steps[0].cmd))
    ensures Exec(host, t, steps).tables == t
    ensures Exec(host, t, steps).outcome.Pass? ==> Planned(steps) == []
  {
    if steps != [] {
      assert steps[0].Abort? || steps[0].Checked?;
    }
  }

  /** The first addition of a run, accepted by the host. */
  lemma AddsStep(host: Host, t: Tables, steps: seq<Step>)
    requires AddsOnly(steps) && t.ipset.Some?
    requires steps != [] && !steps[0].Abort? && host.accepts(Argv(steps[0].cmd))
    ensures steps[0].Checked? && steps[0].cmd.IpsetAdd?
    ensures Exec(host, t, steps)
            == Exec(host, t.(ipset := Some(t.ipset.value + [steps[0].cmd.entry])), steps[1..])
    ensures Planned(steps) == [steps[0].cmd.entry] + Planned(steps[1..])
    ensures AddsOnly(steps[1..])
  {
    assert steps[0].Checked? && steps[0].cmd.IpsetAdd?;
    forall i | 0 <= i < |steps[1..]|
      ensures steps[1..][i] == steps[i + 1]
    {
    }
  }

  lemma AddsOnlyAppend(a: seq<Step>, b: seq<Step>)
    requires AddsOnly(a) && AddsOnly(b)
    ensures AddsOnly(a + b)
  {
    forall i | 0 <= i < |a + b|
      ensures (a + b)[i].Abort? || ((a + b)[i].Checked? && (a + b)[i].cmd.IpsetAdd?)
    {
      if i >= |a| {
        assert (a + b)[i] == b[i - |a|];
      }
    }
  }

  /** `process_services` only adds to the ipset or raises; everything it
      adds is a range `fetch_github_ips` returned, and a policy without
      `github` runs nothing at all. */
  lemma {:induction false} ServicesPlan(meta: Option<Meta>, services: seq<Json>)
    ensures AddsOnly(ServiceSteps(meta, services))
    ensures forall x :: x in Planned(ServiceSteps(meta, services)) ==>
              GithubCidrs(meta).Ok? && x in GithubCidrs(meta).value
    ensures JString("github") !in services ==> ServiceSteps(meta, services) == []
    decreases |services|
  {
    if services != [] {
      var init := services[..|services| - 1];
      var last := services[|services| - 1];
      ServicesPlan(meta, init);
      assert forall s :: s in init ==> s in services;
      var step := ServiceStep(meta, last);
      if last == JString("github") && GithubCidrs(meta).Ok? {
        PlannedAdds(GithubCidrs(meta).value);
      }
      AddsOnlyAppend(ServiceSteps(meta, init), step);
      PlannedAppend(ServiceSteps(meta, init), step);
    }
  }

  /** `process_domains` only adds to the ipset or raises; everything it adds
      is an IPv4 address that resolving one of the domains gave. */
  lemma {:induction false} DomainsPlan(dns: string -> Option<seq<string>>, domains: seq<Json>)
    ensures AddsOnly(DomainSteps(dns, domains))
    ensures forall x :: x in Planned(DomainSteps(dns, domains)) ==>
              ValidIPv4(x) && exists i :: 0 <= i < |domains| && domains[i].JString?
                                          && ResolveDomain(dns, domains[i].s).Ok?
                                          && x in ResolveDomain(dns, domains[i].s).value
    decreases |domains|
  {
    if domains != [] {
      var init := domains[..|domains| - 1];
      var last := domains[|domains| - 1];
      DomainsPlan(dns, init);
      var step := DomainStep(dns, last);
      if last.JString? && ResolveDomain(dns, last.s).Ok? {
        PlannedAdds(ResolveDomain(dns, last.s).value);
      }
      AddsOnlyAppend(DomainSteps(dns, init), step);
      PlannedAppend(DomainSteps(dns, init), step);
      forall x | x in Planned(DomainSteps(dns, domains))
        ensures ValidIPv4(x) && exists i :: 0 <= i < |domains| && domains[i].JString?
                                            && ResolveDomain(dns, domains[i].s).Ok?
                                            && x in ResolveDomain(dns, domains[i].s).value
      {
        if x in Planned(DomainSteps(dns, init)) {
          var i :| 0 <= i < |init| && init[i].JString? && ResolveDomain(dns, init[i].s).Ok?
                   && x in ResolveDomain(dns, init[i].s).value;
          assert domains[i] == init[i];
        } else {
          assert domains[|domains| - 1] == last;
        }
      }
    }
  }

  // ---------------------------------------------------------------------
  // What each phase does when it raises nothing
  // ---------------------------------------------------------------------

  /** The parts of the state the final guarantees speak of. */
  predicate SameGuard(a: Tables, b: Tables) {
    a.policies == b.policies && a.filterRules == b.filterRules && a.ipset == b.ipset
  }

  /** A command that touches neither the filter table, the policies nor the
      ipset. */
  predicate NatSide(c: Cmd) {
    c.NewChain? || c.NatWords? || c.Query?
  }

  /** Unchecked commands of the NAT side never raise and leave the filter
      table, the policies and the ipset alone. */
  lemma {:induction false} NatSideRun(host: Host, t: Tables, steps: seq<Step>)
    requires forall i :: 0 <= i < |steps| ==> steps[i].Unchecked? && NatSide(steps[i].cmd)
    ensures Exec(host, t, steps).outcome.Pass?
    ensures SameGuard(Exec(host, t, steps).tables, t)
    decreases |steps|
  {
    if steps != [] {
      var c := steps[0].cmd;
      var t1 := if host.accepts(Argv(c)) then Apply(t, c) else t;
      assert SameGuard(t1, t);
      NatSideRun(host, t1, steps[1..]);
    }
  }

  /** Restoring the Docker DNS rules is of the NAT side. */
  lemma RestoreNatSide(rules: string)
    ensures forall i :: 0 <= i < |RestoreSteps(rules)| ==>
              RestoreSteps(rules)[i].Unchecked? && NatSide(RestoreSteps(rules)[i].cmd)
  {
    var cmds := RestoreCommands(rules);
    assert forall i :: 0 <= i < |cmds| ==> NatSide(cmds[i]) by {
      RestoreCommandsNatSide(rules);
    }
    assert RestoreSteps(rules) == Unchecks(cmds);
  }

  lemma RestoreCommandsNatSide(rules: string)
    ensures forall i :: 0 <= i < |RestoreCommands(rules)| ==> NatSide(RestoreCommands(rules)[i])
  {
    if rules != [] {
      var head := [NewChain(Nat, "DOCKER_OUTPUT"), NewChain(Nat, "DOCKER_POSTROUTING")];
      var lines := RuleLineCommands(Split(Strip(rules), '\n'));
      var cmds := RestoreCommands(rules);
      assert cmds == head + lines;
      forall i | 0 <= i < |cmds|
        ensures NatSide(cmds[i])
      {
        if i >= 2 {
          assert cmds[i] == lines[i - 2];
        }
      }
    }
  }

  /** `flush_rules` empties the filter table and keeps the policies. */
  lemma FlushRun(host: Host, t: Tables)
    requires Exec(host, t, FlushSteps()).outcome.Pass?
    ensures Exec(host, t, FlushSteps()).tables.filterRules == []
    ensures Exec(host, t, FlushSteps()).tables.policies == t.policies
  {
    var s := FlushSteps();
    var t1 := Apply(t, s[0].cmd);
    assert t1.filterRules == [] && t1.policies == t.policies;
    assert Exec(host, t, s) == Exec(host, t1, s[1..]);
    assert KeepsFilter(s[1..]);
    ExecKeepsFilter(host, t1, s[1..]);
  }

  /** Commands that leave the filter table and the policies alone. */
  predicate KeepsFilter(steps: seq<Step>) {
    forall i :: 0 <= i < |steps| ==>
      !steps[i].Abort?
      && (steps[i].cmd.DeleteChains? || steps[i].cmd.IpsetDestroy?
          || (steps[i].cmd.FlushChains? && steps[i].cmd.table != Filter))
  }

  lemma {:induction false} ExecKeepsFilter(host: Host, t: Tables, steps: seq<Step>)
    requires KeepsFilter(steps)
    ensures Exec(host, t, steps).tables.filterRules == t.filterRules
    ensures Exec(host, t, steps).tables.policies == t.policies
    decreases |steps|
  {
    if steps != [] {
      var c := steps[0].cmd;
      var t1 := if host.accepts(Argv(c)) then Apply(t, c) else t;
      assert t1.filterRules == t.filterRules && t1.policies == t.policies;
      assert KeepsFilter(steps[1..]) by {
        forall i | 0 <= i < |steps[1..]|
          ensures steps[1..][i] == steps[i + 1]
        {
        }
      }
      ExecKeepsFilter(host, t1, steps[1..]);
    }
  }

  /** Checked appends that raise nothing add exactly their rules, in order,
      to the end of the filter table. */
  lemma {:induction false} AppendRun(host: Host, t: Tables, rules: seq<Rule>)
    requires Exec(host, t, AppendSteps(rules)).outcome.Pass?
    ensures Exec(host, t, AppendSteps(rules)).tables == t.(filterRules := t.filterRules + rules)
    decreases |rules|
  {
    if rules == [] {
      assert t.filterRules + rules == t.filterRules;
    } else {
      assert AppendSteps(rules)[1..] == AppendSteps(rules[1..]);
      var t1 := t.(filterRules := t.filterRules + [rules[0]]);
      AppendRun(host, t1, rules[1..]);
      assert t1.filterRules + rules[1..] == t.filterRules + rules;
    }
  }

  /** `setup_host_network` that raises nothing found a gateway whose text is
      four runs of digits and added the two rules for its `/24`. */
  lemma HostNetworkRun(host: Host, t: Tables)
    requires Exec(host, t, HostNetworkSteps(host)).outcome.Pass?
    ensures DefaultGateway(Split(host.routes, '\n')).Some?
    ensures HostNetwork(DefaultGateway(Split(host.routes, '\n')).value).Some?
    ensures Exec(host, t, HostNetworkSteps(host)).tables ==
              t.(filterRules := t.filterRules + HostRules(HostNetwork(DefaultGateway(Split(host.routes, '\n')).value).value))
  {
    var steps := HostNetworkSteps(host);
    var rest := steps[1..];
    assert steps == [Checked(Query(RouteArgv))] + rest;
    ExecAppend(host, t, [Checked(Query(RouteArgv))], rest);
    var gw := DefaultGateway(Split(host.routes, '\n'));
    if gw.Some? && HostNetwork(gw.value).Some? {
      AppendRun(host, t, HostRules(HostNetwork(gw.value).value));
    }
  }

  /** `apply_firewall_rules` that raises nothing sets the three policies to
      DROP and appends the final rules. */
  lemma ApplyRun(host: Host, t: Tables)
    requires Exec(host, t, ApplySteps()).outcome.Pass?
    ensures Exec(host, t, ApplySteps()).tables ==
              t.(policies := t.policies["INPUT" := "DROP"]["FORWARD" := "DROP"]["OUTPUT" := "DROP"],
                 filterRules := t.filterRules + FinalRules)
  {
    var head := [Checked(SetPolicy("INPUT", "DROP")), Checked(SetPolicy("FORWARD", "DROP")),
                 Checked(SetPolicy("OUTPUT", "DROP"))];
    ExecAppend(host, t, head, AppendSteps(FinalRules));
    var t3 := t.(policies := t.policies["INPUT" := "DROP"]["FORWARD" := "DROP"]["OUTPUT" := "DROP"]);
    assert Exec(host, t, head).tables == t3;
    AppendRun(host, t3, FinalRules);
  }

  /** `verify_firewall` changes nothing, and raises nothing exactly when the
      blocked site is unreachable and the chosen endpoint, if any, is
      reachable. */
  lemma VerifyRun(host: Host, t: Tables, p: Policy)
    ensures Exec(host, t, VerifySteps(host, p)).tables == t
    ensures Exec(host, t, VerifySteps(host, p)).outcome.Pass? <==>
              !host.reachable(BlockedSite)
              && (VerifyEndpoint(p).Some? ==> host.reachable(VerifyEndpoint(p).value))
  {
    var first: seq<Step> := if host.reachable(BlockedSite) then [Abort(BlockedSiteReachable)] else [];
    var second: seq<Step> :=
      match VerifyEndpoint(p)
      case None => []
      case Some(probe) => if host.reachable(probe) then [] else [Abort(AllowedUnreachable(probe))];
    assert VerifySteps(host, p) == first + second;
    ExecAppend(host, t, first, second);
  }

  // ---------------------------------------------------------------------
  // A successful run of main
  // ---------------------------------------------------------------------

  /** The rules of one chain, in order. */
  function ChainRules(rules: seq<Rule>, chain: string): (r: seq<Rule>)
    ensures forall i :: 0 <= i < |r| ==> r[i].chain == chain
  {
    if rules == [] then []
    else (if rules[0].chain == chain then [rules[0]] else []) + ChainRules(rules[1..], chain)
  }

  /** The chains of a concatenation are those of its parts. */
  lemma {:induction false} ChainRulesAppend(a: seq<Rule>, b: seq<Rule>, chain: string)
    ensures ChainRules(a + b, chain) == ChainRules(a, chain) + ChainRules(b, chain)
    decreases |a|
  {
    if a == [] {
      assert a + b == b;
    } else {
      assert (a + b)[1..] == a[1..] + b;
      ChainRulesAppend(a[1..], b, chain);
    }
  }

  lemma ChainRulesCons(x: Rule, rest: seq<Rule>, chain: string)
    ensures ChainRules([x] + rest, chain) == (if x.chain == chain then [x] else []) + ChainRules(rest, chain)
  {
    assert ([x] + rest)[1..] == rest;
  }

  /** The OUTPUT chain after a successful run, in order: DNS, SSH, loopback,
      the host network, established connections, the ipset match, and the
      REJECT last. */
  lemma OutputChain(net: string)
    ensures ChainRules(FoundationRules + HostRules(net) + FinalRules, "OUTPUT") ==
              [DnsOut, SshOut, LoOut, Rule("OUTPUT", ["-d", net, "-j", "ACCEPT"]),
               EstablishedOut, MatchSet, RejectOut]
  {
    ChainRulesAppend(FoundationRules + HostRules(net), FinalRules, "OUTPUT");
    ChainRulesAppend(FoundationRules, HostRules(net), "OUTPUT");
    FoundationOutput();
    HostOutput(net);
    FinalOutput();
  }

  lemma FoundationOutput()
    ensures ChainRules(FoundationRules, "OUTPUT") == [DnsOut, SshOut, LoOut]
  {
    var o := "OUTPUT";
    assert "INPUT" != o by { assert |"INPUT"| != |o|; }
    ChainRulesCons(LoOut, [], o);
    ChainRulesCons(LoIn, [LoOut], o);
    ChainRulesCons(SshIn, [LoIn, LoOut], o);
    ChainRulesCons(SshOut, [SshIn, LoIn, LoOut], o);
    ChainRulesCons(DnsIn, [SshOut, SshIn, LoIn, LoOut], o);
    ChainRulesCons(DnsOut, [DnsIn, SshOut, SshIn, LoIn, LoOut], o);
    assert FoundationRules == [DnsOut] + [DnsIn, SshOut, SshIn, LoIn, LoOut];
  }

  lemma HostOutput(net: string)
    ensures ChainRules(HostRules(net), "OUTPUT") == [Rule("OUTPUT", ["-d", net, "-j", "ACCEPT"])]
  {
    var o := "OUTPUT";
    assert "INPUT" != o by { assert |"INPUT"| != |o|; }
    var h := HostRules(net);
    ChainRulesCons(h[1], [], o);
    ChainRulesCons(h[0], [h[1]], o);
    assert h == [h[0]] + [h[1]];
  }

  lemma FinalOutput()
    ensures ChainRules(FinalRules, "OUTPUT") == [EstablishedOut, MatchSet, RejectOut]
  {
    var o := "OUTPUT";
    assert "INPUT" != o by { assert |"INPUT"| != |o|; }
    ChainRulesCons(RejectOut, [], o);
    ChainRulesCons(MatchSet, [RejectOut], o);
    ChainRulesCons(EstablishedOut, [MatchSet, RejectOut], o);
    ChainRulesCons(EstablishedIn, [EstablishedOut, MatchSet, RejectOut], o);
    assert FinalRules == [EstablishedIn] + [EstablishedOut, MatchSet, RejectOut];
  }

  /** Clearing the slate that raises nothing leaves the filter table empty
      and the policies as they were. */
  lemma ResetRun(host: Host, t: Tables)
    requires Exec(host, t, ResetSteps(host)).outcome.Pass?
    ensures Exec(host, t, ResetSteps(host)).tables.filterRules == []
    ensures Exec(host, t, ResetSteps(host)).tables.policies == t.policies
  {
    var rules := SavedRules(host);
    var a1 := SaveSteps();
    var a2 := a1 + FlushSteps();
    PassSplit(host, t, a2, RestoreSteps(rules));
    PassSplit(host, t, a1, FlushSteps());
    NatSideRun(host, t, a1);
    var t1 := Exec(host, t, a1).tables;
    FlushRun(host, t1);
    var t2 := Exec(host, t, a2).tables;
    RestoreNatSide(rules);
    NatSideRun(host, t2, RestoreSteps(rules));
  }

  /** The foundation rules and `create_ipset` that raise nothing append the
      six rules and leave an empty ipset. */
  lemma SetupRun(host: Host, t: Tables)
    requires Exec(host, t, SetupSteps()).outcome.Pass?
    ensures Exec(host, t, SetupSteps()).tables ==
              t.(filterRules := t.filterRules + FoundationRules, ipset := Some([]))
  {
    PassSplit(host, t, AppendSteps(FoundationRules), [Checked(IpsetCreate)]);
    AppendRun(host, t, FoundationRules);
  }

  /** `process_services` then `process_domains`: they only add to the
      ipset, in order, what they planned. */
  lemma AllowPlan(host: Host, p: Policy)
    ensures AddsOnly(AllowSteps(host, p))
    ensures Planned(AllowSteps(host, p)) ==
              Planned(ServiceSteps(host.meta, p.services)) + Planned(DomainSteps(host.dns, p.domains))
  {
    ServicesPlan(host.meta, p.services);
    DomainsPlan(host.dns, p.domains);
    AddsOnlyAppend(ServiceSteps(host.meta, p.services), DomainSteps(host.dns, p.domains));
    PlannedAppend(ServiceSteps(host.meta, p.services), DomainSteps(host.dns, p.domains));
  }

  /** Fail-closed filling of the ipset: whatever happens, it grows by a
      prefix of the planned entries (all of them when nothing raised) and
      nothing else changes. */
  lemma AllowRun(host: Host, t: Tables, p: Policy)
    requires t.ipset.Some?
    ensures var planned := Planned(ServiceSteps(host.meta, p.services)) + Planned(DomainSteps(host.dns, p.domains));
            exists k :: 0 <= k <= |planned|
                        && Exec(host, t, AllowSteps(host, p)).tables == t.(ipset := Some(t.ipset.value + planned[..k]))
                        && (Exec(host, t, AllowSteps(host, p)).outcome.Pass? ==> k == |planned|)
  {
    AllowPlan(host, p);
    AddsRun(host, t, AllowSteps(host, p));
    var k := Accepted(host, AllowSteps(host, p));
    assert 0 <= k <= |Planned(AllowSteps(host, p))|;
  }

  /** Filling the ipset that raises nothing adds every planned entry. */
  lemma AllowSuccess(host: Host, t: Tables, p: Policy)
    requires t.ipset.Some? && Exec(host, t, AllowSteps(host, p)).outcome.Pass?
    ensures Exec(host, t, AllowSteps(host, p)).tables ==
              t.(ipset := Some(t.ipset.value + Planned(ServiceSteps(host.meta, p.services))
                                             + Planned(DomainSteps(host.dns, p.domains))))
  {
    var v := t.ipset.value;
    var services := Planned(ServiceSteps(host.meta, p.services));
    var domains := Planned(DomainSteps(host.dns, p.domains));
    var steps := AllowSteps(host, p);
    assert AddsOnly(steps) && Planned(steps) == services + domains by {
      AllowPlan(host, p);
    }
    assert Exec(host, t, steps).tables == t.(ipset := Some(v + Planned(steps))) by {
      AddsSuccess(host, t, steps);
    }
    assert v + (services + domains) == v + services + domains;
  }

  /** Additions to the ipset that raise nothing add every planned entry. */
  lemma AddsSuccess(host: Host, t: Tables, steps: seq<Step>)
    requires AddsOnly(steps) && t.ipset.Some? && Exec(host, t, steps).outcome.Pass?
    ensures Exec(host, t, steps).tables == t.(ipset := Some(t.ipset.value + Planned(steps)))
  {
    var planned := Planned(steps);
    AddsRun(host, t, steps);
    assert planned[..Accepted(host, steps)] == planned;
  }

  /** Locking down that raises nothing: a host network was found, the
      blocked site was unreachable, the policies are DROP and the host and
      final rules follow what was there. */
  lemma LockRun(host: Host, t: Tables, p: Policy)
    requires Exec(host, t, LockSteps(host, p)).outcome.Pass?
    ensures !host.reachable(BlockedSite)
    ensures DefaultGateway(Split(host.routes, '\n')).Some?
    ensures HostNetwork(DefaultGateway(Split(host.routes, '\n')).value).Some?
    ensures var net := HostNetwork(DefaultGateway(Split(host.routes, '\n')).value).value;
            Exec(host, t, LockSteps(host, p)).tables ==
              t.(policies := t.policies["INPUT" := "DROP"]["FORWARD" := "DROP"]["OUTPUT" := "DROP"],
                 filterRules := t.filterRules + HostRules(net) + FinalRules)
  {
    var a1 := HostNetworkSteps(host);
    var a2 := a1 + ApplySteps();
    PassSplit(host, t, a2, VerifySteps(host, p));
    PassSplit(host, t, a1, ApplySteps());
    HostNetworkRun(host, t);
    var t1 := Exec(host, t, a1).tables;
    ApplyRun(host, t1);
    var t2 := Exec(host, t, a2).tables;
    VerifyRun(host, t2, p);
  }

  /** Clearing the slate, the foundation rules and `create_ipset`, when
      they raise nothing: only the foundation rules in the filter table, an
      empty ipset, the policies as they were. */
  lemma FrontSuccess(host: Host, t: Tables)
    requires Exec(host, t, ResetSteps(host) + SetupSteps()).outcome.Pass?
    ensures var r := Exec(host, t, ResetSteps(host) + SetupSteps()).tables;
            r.filterRules == FoundationRules && r.ipset == Some([]) && r.policies == t.policies
  {
    PassSplit(host, t, ResetSteps(host), SetupSteps());
    ResetRun(host, t);
    var t1 := Exec(host, t, ResetSteps(host)).tables;
    SetupRun(host, t1);
    assert t1.filterRules + FoundationRules == FoundationRules;
  }

  /** Filling the ipset and locking down, when they raise nothing. */
  lemma BackSuccess(host: Host, t: Tables, p: Policy)
    requires t.ipset.Some?
    requires Exec(host, t, AllowSteps(host, p) + LockSteps(host, p)).outcome.Pass?
    ensures !host.reachable(BlockedSite)
    ensures DefaultGateway(Split(host.routes, '\n')).Some?
    ensures HostNetwork(DefaultGateway(Split(host.routes, '\n')).value).Some?
    ensures var r := Exec(host, t, AllowSteps(host, p) + LockSteps(host, p)).tables;
            var net := HostNetwork(DefaultGateway(Split(host.routes, '\n')).value).value;
            && r.policies == t.policies["INPUT" := "DROP"]["FORWARD" := "DROP"]["OUTPUT" := "DROP"]
            && r.filterRules == t.filterRules + HostRules(net) + FinalRules
            && r.ipset == Some(t.ipset.value + Planned(ServiceSteps(host.meta, p.services))
                                             + Planned(DomainSteps(host.dns, p.domains)))
  {
    PassSplit(host, t, AllowSteps(host, p), LockSteps(host, p));
    AllowSuccess(host, t, p);
    var t1 := Exec(host, t, AllowSteps(host, p)).tables;
    LockRun(host, t1, p);
  }

  lemma EmptyPrefix(e: seq<string>, a: seq<string>, b: seq<string>)
    requires e == []
    ensures e + a + b == a + b
  {
  }

  lemma Regroup(a: seq<Step>, b: seq<Step>, c: seq<Step>, d: seq<Step>)
    ensures a + b + c + d == (a + b) + (c + d)
  {
  }

  /** The phases after `load_policy`, when none raises. */
  lemma PipelineSuccess(host: Host, t: Tables, p: Policy)
    requires Exec(host, t, PipelineSteps(host, p)).outcome.Pass?
    ensures !host.reachable(BlockedSite)
    ensures DefaultGateway(Split(host.routes, '\n')).Some?
    ensures HostNetwork(DefaultGateway(Split(host.routes, '\n')).value).Some?
    ensures var r := Exec(host, t, PipelineSteps(host, p)).tables;
            var net := HostNetwork(DefaultGateway(Split(host.routes, '\n')).value).value;
            && r.policies == t.policies["INPUT" := "DROP"]["FORWARD" := "DROP"]["OUTPUT" := "DROP"]
            && r.filterRules == FoundationRules + HostRules(net) + FinalRules
            && r.ipset == Some(Planned(ServiceSteps(host.meta, p.services)) + Planned(DomainSteps(host.dns, p.domains)))
  {
    var front := ResetSteps(host) + SetupSteps();
    var back := AllowSteps(host, p) + LockSteps(host, p);
    Regroup(ResetSteps(host), SetupSteps(), AllowSteps(host, p), LockSteps(host, p));
    PassSplit(host, t, front, back);
    FrontSuccess(host, t);
    var t1 := Exec(host, t, front).tables;
    BackSuccess(host, t1, p);
    var r := Exec(host, t, PipelineSteps(host, p)).tables;
    assert r == Exec(host, t1, back).tables;
    var planned := Planned(ServiceSteps(host.meta, p.services)) + Planned(DomainSteps(host.dns, p.domains));
    assert r.ipset == Some(t1.ipset.value + Planned(ServiceSteps(host.meta, p.services))
                                          + Planned(DomainSteps(host.dns, p.domains)));
    EmptyPrefix(t1.ipset.value, Planned(ServiceSteps(host.meta, p.services)), Planned(DomainSteps(host.dns, p.domains)));
  }

  /** A run of `main` that exits with status 0: the policy loaded, the
      blocked site was unreachable, the three built-in chains drop by
      default, the filter table holds exactly the foundation rules, the two
      host-network rules and the final rules, in that order, and the ipset
      holds exactly what `process_services` and then `process_domains`
      planned to add, in order. */
  lemma MainSuccess(host: Host, t: Tables, file: PolicyFile)
    requires Exec(host, t, MainSteps(host, file)).outcome.Pass?
    ensures LoadPolicy(file).Ok?
    ensures !host.reachable(BlockedSite)
    ensures DefaultGateway(Split(host.routes, '\n')).Some?
    ensures HostNetwork(DefaultGateway(Split(host.routes, '\n')).value).Some?
    ensures var p := LoadPolicy(file).value;
            var r := Exec(host, t, MainSteps(host, file)).tables;
            var net := HostNetwork(DefaultGateway(Split(host.routes, '\n')).value).value;
            && r.policies == t.policies["INPUT" := "DROP"]["FORWARD" := "DROP"]["OUTPUT" := "DROP"]
            && r.filterRules == FoundationRules + HostRules(net) + FinalRules
            && r.ipset == Some(Planned(ServiceSteps(host.meta, p.services)) + Planned(DomainSteps(host.dns, p.domains)))
  {
    PipelineSuccess(host, t, LoadPolicy(file).value);
  }

  /** A policy that fails to load stops `main` before any command runs. */
  lemma LoadFailureUntouched(host: Host, t: Tables, file: PolicyFile)
    requires LoadPolicy(file).Err?
    ensures Exec(host, t, MainSteps(host, file)) == RunResult(t, Fail(LoadPolicy(file).error))
  {
  }
}
