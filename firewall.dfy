/**
 * The firewall initialiser as it runs: an object holding the kernel state it
 * changes, whose methods are the functions of `images/base/init-firewall.py`
 * in the order `main` calls them. Each phase is proved to change the state
 * and to raise exactly as the step lists of `FirewallSpec` say, so the
 * guarantees of `FirewallProps` hold of the program.
 */
module FirewallInit {
  import opened Results
  import opened Text
  import opened AddrText
  import opened FirewallText
  import opened Resolve
  import opened FirewallSpec
  import opened FirewallProps

  class Firewall {
    /** The world the commands run against. */
    const host: Host

    var policies: map<string, string>
    var filterRules: seq<Rule>
    var natRules: seq<Rule>
    var mangleRules: seq<Rule>
    var chains: set<(Table, string)>
    var ipset: Option<seq<string>>

    function State(): Tables
      reads this
    {
      Tables(policies, filterRules, natRules, mangleRules, chains, ipset)
    }

    constructor (host: Host, initial: Tables)
      ensures this.host == host && State() == initial
    {
      this.host := host;
      policies := initial.policies;
      filterRules := initial.filterRules;
      natRules := initial.natRules;
      mangleRules := initial.mangleRules;
      chains := initial.chains;
      ipset := initial.ipset;
    }

    method SetRules(table: Table, rules: seq<Rule>)
      modifies this
      ensures State() == WithRules(old(State()), table, rules)
    {
      match table
      case Filter => filterRules := rules;
      case Nat => natRules := rules;
      case Mangle => mangleRules := rules;
    }

    /** `subprocess.run` of a command: it takes effect when it exits with
        status 0. */
    method Execute(c: Cmd) returns (ok: bool)
      modifies this
      ensures ok == host.accepts(Argv(c))
      ensures State() == if ok then Apply(old(State()), c) else old(State())
    {
      ok := host.accepts(Argv(c));
      if !ok {
        return;
      }
      match c
      case FlushChains(table) => SetRules(table, []);
      case DeleteChains(table) => chains := set ch | ch in chains && ch.0 != table;
      case NewChain(table, chain) => chains := chains + {(table, chain)};
      case AppendRule(table, rule) => SetRules(table, RulesOf(State(), table) + [rule]);
      case SetPolicy(chain, target) => policies := policies[chain := target];
      case NatWords(words) =>
        if |words| >= 2 && words[0] == "-A" {
          natRules := natRules + [Rule(words[1], words[2..])];
        }
      case IpsetCreate => ipset := Some([]);
      case IpsetDestroy => ipset := None;
      case IpsetAdd(entry) =>
        if ipset.Some? {
          ipset := Some(ipset.value + [entry]);
        }
      case Query(_) =>
    }

    /** `run_cmd`: a command that fails raises. */
    method RunCmd(c: Cmd) returns (o: Outcome<FirewallError>)
      modifies this
      ensures RunResult(State(), o) == Exec(host, old(State()), [Checked(c)])
    {
      var ok := Execute(c);
      o := if ok then Pass else Fail(CommandFailed(Argv(c)));
    }

    /** `run_cmd_unchecked`: the exit status is only reported. */
    method RunCmdUnchecked(c: Cmd) returns (ok: bool)
      modifies this
      ensures ok == host.accepts(Argv(c))
      ensures Exec(host, old(State()), [Unchecked(c)]) == RunResult(State(), Pass)
    {
      ok := Execute(c);
    }

    /** A straight run of `run_cmd` calls, stopping at the first that
        raises. */
    method RunChecked(rules: seq<Step>) returns (o: Outcome<FirewallError>)
      requires forall i :: 0 <= i < |rules| ==> rules[i].Checked?
      modifies this
      ensures RunResult(State(), o) == Exec(host, old(State()), rules)
    {
      var i := 0;
      while i < |rules|
        invariant 0 <= i <= |rules|
        invariant Exec(host, old(State()), rules) == Exec(host, State(), rules[i..])
      {
        assert rules[i..] == [rules[i]] + rules[i + 1..];
        ghost var before := State();
        ExecAppend(host, before, [rules[i]], rules[i + 1..]);
        o := RunCmd(rules[i].cmd);
        if o.Fail? {
          return;
        }
        i := i + 1;
      }
      o := Pass;
    }

    /** `add_to_ipset` of each entry in order, stopping at the first that
        fails. */
    method AddAll(entries: seq<string>) returns (o: Outcome<FirewallError>)
      modifies this
      ensures RunResult(State(), o) == Exec(host, old(State()), AddSteps(entries))
    {
      var i := 0;
      while i < |entries|
        invariant 0 <= i <= |entries|
        invariant Exec(host, old(State()), AddSteps(entries)) == Exec(host, State(), AddSteps(entries[i..]))
      {
        assert AddSteps(entries[i..]) == [Checked(IpsetAdd(entries[i]))] + AddSteps(entries[i + 1..]);
        ghost var before := State();
        ExecAppend(host, before, [Checked(IpsetAdd(entries[i]))], AddSteps(entries[i + 1..]));
        o := RunCmd(IpsetAdd(entries[i]));
        if o.Fail? {
          return;
        }
        i := i + 1;
      }
      o := Pass;
    }

    /** `save_docker_dns_rules`. */
    method SaveDockerDnsRules() returns (rules: string)
      modifies this
      ensures rules == SavedRules(host)
      ensures Exec(host, old(State()), SaveSteps()) == RunResult(State(), Pass)
    {
      var ok := RunCmdUnchecked(Query(SaveArgv));
      if ok && host.natDump != [] {
        var lines := DnsLines(Split(host.natDump, '\n'));
        rules := Join(lines, '\n');
      } else {
        rules := [];
      }
    }

    /** `flush_rules`. */
    method FlushRules() returns (o: Outcome<FirewallError>)
      modifies this
      ensures RunResult(State(), o) == Exec(host, old(State()), FlushSteps())
    {
      var head := FlushSteps()[..6];
      o := RunChecked(head);
      ExecAppend(host, old(State()), head, [Unchecked(IpsetDestroy)]);
      assert FlushSteps() == head + [Unchecked(IpsetDestroy)];
      if o.Fail? {
        return;
      }
      var _ := RunCmdUnchecked(IpsetDestroy);
    }

    /** `restore_docker_dns`: nothing for empty text; otherwise the two
        chains, then every non-empty line of the stripped text, unchecked. */
    method RestoreDockerDns(rules: string)
      modifies this
      ensures Exec(host, old(State()), RestoreSteps(rules)) == RunResult(State(), Pass)
    {
      if rules == [] {
        return;
      }
      var lines := Split(Strip(rules), '\n');
      var first := NewChain(Nat, "DOCKER_OUTPUT");
      var second := NewChain(Nat, "DOCKER_POSTROUTING");
      ghost var rest := Unchecks(RuleLineCommands(lines));
      RestoreStepsShape(rules);
      var _ := RunCmdUnchecked(first);
      ExecAppend(host, old(State()), [Unchecked(first)], [Unchecked(second)] + rest);
      ghost var mid := State();
      var _ := RunCmdUnchecked(second);
      ExecAppend(host, mid, [Unchecked(second)], rest);
      RestoreLines(lines);
    }

    /** The loop of `restore_docker_dns` over the lines of the saved rules. */
    method RestoreLines(lines: seq<string>)
      modifies this
      ensures Exec(host, old(State()), Unchecks(RuleLineCommands(lines))) == RunResult(State(), Pass)
    {
      var i := 0;
      while i < |lines|
        invariant 0 <= i <= |lines|
        invariant Exec(host, old(State()), Unchecks(RuleLineCommands(lines))) == Exec(host, State(), Unchecks(RuleLineCommands(lines[i..])))
      {
        var rule := lines[i];
        assert lines[i..][0] == rule && lines[i..][1..] == lines[i + 1..];
        assert RuleLineCommands(lines[i..])
          == (if rule != [] then [NatWords(Words(rule))] else []) + RuleLineCommands(lines[i + 1..]);
        if rule != [] {
          ghost var before := State();
          ghost var later := Unchecks(RuleLineCommands(lines[i + 1..]));
          UnchecksCons(NatWords(Words(rule)), RuleLineCommands(lines[i + 1..]));
          ExecAppend(host, before, [Unchecked(NatWords(Words(rule)))], later);
          assert Unchecks(RuleLineCommands(lines[i..])) == [Unchecked(NatWords(Words(rule)))] + later;
          var parts := Words(rule);
          var _ := RunCmdUnchecked(NatWords(parts));
        } else {
          assert RuleLineCommands(lines[i..]) == RuleLineCommands(lines[i + 1..]);
        }
        i := i + 1;
      }
    }

    /** `setup_foundation_rules`. */
    method SetupFoundationRules() returns (o: Outcome<FirewallError>)
      modifies this
      ensures RunResult(State(), o) == Exec(host, old(State()), AppendSteps(FoundationRules))
    {
      o := RunChecked(AppendSteps(FoundationRules));
    }

    /** `create_ipset`. */
    method CreateIpset() returns (o: Outcome<FirewallError>)
      modifies this
      ensures RunResult(State(), o) == Exec(host, old(State()), [Checked(IpsetCreate)])
    {
      o := RunCmd(IpsetCreate);
    }

    /** `process_services`: for each `github` entry, fetch and add the
        ranges; any other service is skipped. */
    method ProcessServices(services: seq<Json>) returns (o: Outcome<FirewallError>)
      modifies this
      ensures RunResult(State(), o) == Exec(host, old(State()), ServiceSteps(host.meta, services))
    {
      var i := 0;
      while i < |services|
        invariant 0 <= i <= |services|
        invariant Exec(host, old(State()), ServiceSteps(host.meta, services[..i])) == RunResult(State(), Pass)
      {
        var service := services[i];
        assert services[..i + 1][..i] == services[..i];
        ExecAppend(host, old(State()), ServiceSteps(host.meta, services[..i]), ServiceStep(host.meta, service));
        ConcatSplit(ServiceStepOf(host.meta), services, i + 1);
        if service == JString("github") {
          var cidrs := FetchGithubIps(host.meta);
          if cidrs.Err? {
            o := Fail(cidrs.error);
            FailClosed(host, old(State()), ServiceSteps(host.meta, services[..i + 1]), ServiceSteps(host.meta, services[i + 1..]));
            return;
          }
          o := AddAll(cidrs.value);
          if o.Fail? {
            FailClosed(host, old(State()), ServiceSteps(host.meta, services[..i + 1]), ServiceSteps(host.meta, services[i + 1..]));
            return;
          }
        }
        i := i + 1;
      }
      assert services[..i] == services;
      o := Pass;
    }

    /** `process_domains`: resolve each domain and add its addresses. */
    method ProcessDomains(domains: seq<Json>) returns (o: Outcome<FirewallError>)
      modifies this
      ensures RunResult(State(), o) == Exec(host, old(State()), DomainSteps(host.dns, domains))
    {
      var i := 0;
      while i < |domains|
        invariant 0 <= i <= |domains|
        invariant Exec(host, old(State()), DomainSteps(host.dns, domains[..i])) == RunResult(State(), Pass)
      {
        var domain := domains[i];
        assert domains[..i + 1][..i] == domains[..i];
        ExecAppend(host, old(State()), DomainSteps(host.dns, domains[..i]), DomainStep(host.dns, domain));
        ConcatSplit(DomainStepOf(host.dns), domains, i + 1);
        if !domain.JString? {
          o := Fail(UnexpectedError);
          FailClosed(host, old(State()), DomainSteps(host.dns, domains[..i + 1]), DomainSteps(host.dns, domains[i + 1..]));
          return;
        }
        var ips := ResolveDomain(host.dns, domain.s);
        if ips.Err? {
          o := Fail(ips.error);
          FailClosed(host, old(State()), DomainSteps(host.dns, domains[..i + 1]), DomainSteps(host.dns, domains[i + 1..]));
          return;
        }
        o := AddAll(ips.value);
        if o.Fail? {
          FailClosed(host, old(State()), DomainSteps(host.dns, domains[..i + 1]), DomainSteps(host.dns, domains[i + 1..]));
          return;
        }
        i := i + 1;
      }
      assert domains[..i] == domains;
      o := Pass;
    }

    /** `setup_host_network`. */
    method SetupHostNetwork() returns (o: Outcome<FirewallError>)
      modifies this
      ensures RunResult(State(), o) == Exec(host, old(State()), HostNetworkSteps(host))
    {
      var rest := HostNetworkSteps(host)[1..];
      assert HostNetworkSteps(host) == [Checked(Query(RouteArgv))] + rest;
      ExecAppend(host, old(State()), [Checked(Query(RouteArgv))], rest);
      o := RunCmd(Query(RouteArgv));
      if o.Fail? {
        return;
      }
      var hostIp := FindHostIp(host.routes);
      if hostIp.None? {
        return Fail(NoHostIP);
      }
      var hostNetwork := HostNetwork(hostIp.value);
      if hostNetwork.None? {
        return Fail(InvalidHostIP(hostIp.value));
      }
      o := RunChecked(AppendSteps(HostRules(hostNetwork.value)));
    }

    /** `apply_firewall_rules`. */
    method ApplyFirewallRules() returns (o: Outcome<FirewallError>)
      modifies this
      ensures RunResult(State(), o) == Exec(host, old(State()), ApplySteps())
    {
      o := RunChecked(ApplySteps());
    }

    /** `verify_firewall`: the probes change nothing. */
    method VerifyFirewall(p: Policy) returns (o: Outcome<FirewallError>)
      ensures RunResult(State(), o) == Exec(host, State(), VerifySteps(host, p))
    {
      VerifyRun(host, State(), p);
      if host.reachable(BlockedSite) {
        return Fail(BlockedSiteReachable);
      }
      var endpoint := VerifyEndpoint(p);
      if endpoint.Some? && !host.reachable(endpoint.value) {
        return Fail(AllowedUnreachable(endpoint.value));
      }
      o := Pass;
    }

    /** Lines 330-332 of `main`: save, flush, restore. */
    method Reset() returns (o: Outcome<FirewallError>)
      modifies this
      ensures RunResult(State(), o) == Exec(host, old(State()), ResetSteps(host))
    {
      var rules := SaveDockerDnsRules();
      o := FlushRules();
      ExecAppend(host, old(State()), SaveSteps(), FlushSteps());
      ExecAppend(host, old(State()), SaveSteps() + FlushSteps(), RestoreSteps(rules));
      if o.Fail? {
        return;
      }
      RestoreDockerDns(rules);
    }

    /** Lines 333-334 of `main`: the foundation rules and the ipset. */
    method Setup() returns (o: Outcome<FirewallError>)
      modifies this
      ensures RunResult(State(), o) == Exec(host, old(State()), SetupSteps())
    {
      o := SetupFoundationRules();
      ExecAppend(host, old(State()), AppendSteps(FoundationRules), [Checked(IpsetCreate)]);
      if o.Fail? {
        return;
      }
      o := CreateIpset();
    }

    /** Lines 335-336 of `main`: the services, then the domains. */
    method Allow(p: Policy) returns (o: Outcome<FirewallError>)
      modifies this
      ensures RunResult(State(), o) == Exec(host, old(State()), AllowSteps(host, p))
    {
      o := ProcessServices(p.services);
      ExecAppend(host, old(State()), ServiceSteps(host.meta, p.services), DomainSteps(host.dns, p.domains));
      if o.Fail? {
        return;
      }
      o := ProcessDomains(p.domains);
    }

    /** Lines 337-339 of `main`: host network, final rules, probes. */
    method Lock(p: Policy) returns (o: Outcome<FirewallError>)
      modifies this
      ensures RunResult(State(), o) == Exec(host, old(State()), LockSteps(host, p))
    {
      o := SetupHostNetwork();
      ExecAppend(host, old(State()), HostNetworkSteps(host), ApplySteps());
      if o.Fail? {
        FailClosed(host, old(State()), HostNetworkSteps(host) + ApplySteps(), VerifySteps(host, p));
        return;
      }
      ghost var mid := State();
      o := ApplyFirewallRules();
      ExecAppend(host, old(State()), HostNetworkSteps(host) + ApplySteps(), VerifySteps(host, p));
      if o.Fail? {
        return;
      }
      o := VerifyFirewall(p);
    }

    /** `main`: load the policy, run every phase until one raises, and
        return the exit status. */
    method InitFirewall(file: PolicyFile) returns (exitCode: int)
      modifies this
      ensures State() == Exec(host, old(State()), MainSteps(host, file)).tables
      ensures exitCode == ExitCode(Exec(host, old(State()), MainSteps(host, file)).outcome)
      ensures LoadPolicy(file).Err? ==> State() == old(State()) && exitCode == 1
    {
      var loaded := LoadPolicy(file);
      if loaded.Err? {
        return 1;
      }
      var p := loaded.value;
      ghost var t0 := State();
      var front := ResetSteps(host) + SetupSteps();
      var whole := front + AllowSteps(host, p);
      Regroup(ResetSteps(host), SetupSteps(), AllowSteps(host, p), LockSteps(host, p));
      assert MainSteps(host, file) == whole + LockSteps(host, p);

      var o := Reset();
      ExecAppend(host, t0, ResetSteps(host), SetupSteps());
      if o.Fail? {
        FailClosed(host, t0, front, AllowSteps(host, p) + LockSteps(host, p));
        return 1;
      }
      o := Setup();
      ExecAppend(host, t0, front, AllowSteps(host, p));
      if o.Fail? {
        FailClosed(host, t0, front, AllowSteps(host, p) + LockSteps(host, p));
        return 1;
      }
      o := Allow(p);
      ExecAppend(host, t0, whole, LockSteps(host, p));
      if o.Fail? {
        return 1;
      }
      o := Lock(p);
      exitCode := if o.Pass? then 0 else 1;
    }
  }

  lemma Assoc(a: seq<Step>, b: seq<Step>, c: seq<Step>)
    ensures (a + b) + c == a + (b + c)
  {
  }

  /** The steps of `restore_docker_dns` for non-empty text: the two chains,
      then the line commands, all unchecked. */
  lemma RestoreStepsShape(rules: string)
    requires rules != []
    ensures RestoreSteps(rules)
            == [Unchecked(NewChain(Nat, "DOCKER_OUTPUT"))]
               + ([Unchecked(NewChain(Nat, "DOCKER_POSTROUTING"))]
                  + Unchecks(RuleLineCommands(Split(Strip(rules), '\n'))))
  {
    var first := NewChain(Nat, "DOCKER_OUTPUT");
    var second := NewChain(Nat, "DOCKER_POSTROUTING");
    var cmds := RuleLineCommands(Split(Strip(rules), '\n'));
    UnchecksCons(first, [second] + cmds);
    UnchecksCons(second, cmds);
  }

  lemma UnchecksCons(c: Cmd, rest: seq<Cmd>)
    ensures Unchecks([c] + rest) == [Unchecked(c)] + Unchecks(rest)
  {
  }

  /** A loop over a list runs its steps over a prefix, then over the
      rest. */
  lemma {:induction false} ConcatSplit<T>(f: T -> seq<Step>, xs: seq<T>, k: nat)
    requires k <= |xs|
    ensures Concat(f, xs) == Concat(f, xs[..k]) + Concat(f, xs[k..])
    decreases |xs|
  {
    if k < |xs| {
      var n := |xs|;
      var init := xs[..n - 1];
      var tail := xs[k..];
      var front := Concat(f, xs[..k]);
      var middle := Concat(f, init[k..]);
      var step := f(xs[n - 1]);
      assert Concat(f, init) == front + middle by {
        ConcatSplit(f, init, k);
        assert init[..k] == xs[..k];
      }
      assert Concat(f, tail) == middle + step by {
        assert tail[..|tail| - 1] == init[k..] && tail[|tail| - 1] == xs[n - 1];
      }
      Assoc(front, middle, step);
    } else {
      assert xs[..k] == xs;
      assert xs[k..] == [];
    }
  }
}
